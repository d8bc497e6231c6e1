# jenkins-cli core, modelled in Dafny

jenkins-cli connects a Jenkins build to the telemetry of the machine that ran
it. It reads the job URL, finds the job and the build, derives when the build
ran and which agent ran it, and asks Instana for that host's metrics over the
window. The model covers the computation in between and leaves out the two
HTTP clients:

- `golib.dfy` (module `GoLib`) models the Go library behaviour the core
  depends on:
  - integer division that truncates toward zero
  - `strings.TrimSpace`, `strings.TrimRight`, `strings.Split`,
    `strings.LastIndex` and `path.Split`
  - `strings.Join`, which the program never calls. It is defined only as the
    inverse of `Split`, for the lemmas `JoinSplit` and `SplitJoin`.
  - the one regular-expression shape the program uses,
    `<literal>\b([\w]+\b)` with `FindStringSubmatch`. This is modelled as a
    scan, and a lemma proves the scan equal to a direct reading of the
    pattern.
- `jenkins.dfy` (module `Jenkins`) models `parseJobURL`, the derived times of
  `GetBuildInfo`, `findBuildHostMachineName`, and `GetBuildInfo` itself. The
  Jenkins job lookup is a function parameter.
- `instana.dfy` (module `Instana`) models:
  - `computeRollupValue`, with the clock reading passed in
  - the request that `GetHostMetrics` sends
  - the min/max/sum fold that reduces the answer. This is nested loops that
    are proved against a specification function. The API call is a function
    parameter.
- `ghestimator.dfy` (module `Ghestimator`) models the standalone script:
  - its own `parseJobURL`, with a proof of exactly when it agrees with the
    package's parser
  - the end-time arithmetic
  - the `Running on` scan (note the capital R)
  - the request it sends

Behaviour of the code worth knowing:

- All trailing `/` are stripped, not just one.
- `\w` is ASCII, so on a log line "Running on agent-7" the script's node is
  `agent`, and the package, which looks for lowercase "running on ", finds
  nothing.
- In the results of `GetHostMetrics` every average is multiplied by 100,
  whatever the metric, and min and max are not. The printers, which are left
  out, multiply min and max by 100 when printing.
- An empty series divides 0 by 0 and gives NaN. It raises no error.
- `GetBuildInfo` never sets `ScheduledTimeUnix`, so it stays 0.

Go's `int64` values are modelled as unbounded `int`. The metric values are
modelled as `real`.

## Model

| member | source | states |
|---|---|---|
| GoLib.TruncDiv | pkg/jenkins/jenkins.go:114-115 | Go's `/` on integers: the remainder is in [0, b) for a non-negative dividend and in (-b, 0] for a negative one, so the quotient is truncated toward zero |
| GoLib.TruncDivMonotone | pkg/instana/utils.go:138 | truncating division by a positive divisor is non-decreasing in the dividend, for both signs |
| GoLib.IsSpace | pkg/jenkins/jenkins.go:236 | `unicode.IsSpace`, the white space `strings.TrimSpace` removes: ' ', '\t' to '\r', U+0085, U+00A0 and the other code points with Unicode's White_Space property |
| GoLib.TrimLeftSpace | pkg/jenkins/jenkins.go:236 | the result is a suffix of the input, every dropped character is white space, and the result does not start with white space |
| GoLib.TrimRightSpace | pkg/jenkins/jenkins.go:236 | the result is a prefix of the input, every dropped character is white space, and the result does not end with white space |
| GoLib.TrimSpace | pkg/jenkins/jenkins.go:236 | `strings.TrimSpace` as TrimRightSpace of TrimLeftSpace; its meaning is stated by TrimSpaceOfPadded and AlreadySpaceTrimmed |
| GoLib.TrimSpaceOfPadded | pkg/jenkins/jenkins.go:236 | TrimSpace of any white space, then a string without surrounding white space, then any white space, gives that string back |
| GoLib.AlreadySpaceTrimmed | ghestimator.go:56 | a string that neither starts nor ends with white space is left unchanged by TrimSpace |
| GoLib.TrimRight | pkg/jenkins/jenkins.go:236 | the result is a prefix of the input, every dropped character is in the cutset, and the last kept character is not |
| GoLib.TrimRightOfSlashes | pkg/jenkins/jenkins.go:236 | trimming '/' from the right ignores any number of appended slashes |
| GoLib.Split | pkg/jenkins/jenkins.go:238 | `strings.Split` on a one-character separator gives at least one piece; SplitConcat, SplitNoSep, JoinSplit and SplitJoin state what the pieces are |
| GoLib.SplitConcat | pkg/jenkins/jenkins.go:238 | splitting at one separator splits the two sides independently and concatenates the pieces |
| GoLib.SplitNoSep | pkg/jenkins/jenkins.go:238 | a string without the separator splits into itself alone |
| GoLib.JoinSplit | pkg/jenkins/jenkins.go:238 | joining the pieces of a split with the separator gives the original string |
| GoLib.SplitJoin | pkg/jenkins/jenkins.go:238 | splitting the join of separator-free pieces gives back exactly those pieces |
| GoLib.LastIndex | pkg/jenkins/jenkins.go:237 | -1 exactly when the character is absent; otherwise that position holds it and none after does |
| GoLib.PathSplit | pkg/jenkins/jenkins.go:237 | the directory and file parts concatenate to the input, the file part has no '/', and the directory part is empty or ends in '/' |
| GoLib.PathSplitAt | pkg/jenkins/jenkins.go:237 | any decomposition into a part ending in '/' and a part without '/' is the one path.Split returns |
| GoLib.IsWordChar | pkg/jenkins/jenkins.go:221 | RE2's `\w`: ASCII letters, digits and '_' only, so '-' and '.' end a host name |
| GoLib.IsBoundary | pkg/jenkins/jenkins.go:221 | RE2's `\b`: a word character on exactly one side of the position, the text's ends counting as non-word |
| GoLib.RegexMatch | pkg/jenkins/jenkins.go:221 | the pattern `lit\b([\w]+\b)` read literally: the literal, a boundary, a non-empty run of word characters and a boundary; RegexMatchIff and FindSubmatchIsLeftmost compare the scan against it |
| GoLib.WordRunEnd | pkg/jenkins/jenkins.go:221 | the end of the maximal run of word characters from a position: all characters before it are word characters, and the next one is not or the text ends |
| GoLib.FindFrom | pkg/jenkins/jenkins.go:222 | the first position at or after i where the literal is followed by a word character, or None when there is no such position |
| GoLib.FindSubmatch | pkg/jenkins/jenkins.go:222-223 | nil exactly when no occurrence of the literal is followed by a word character; otherwise a non-empty string of word characters |
| GoLib.RegexMatchIff | pkg/jenkins/jenkins.go:221 | for a literal ending in a non-word character, `lit\b([\w]+\b)` matches t[i..j] exactly when the literal is at i followed by a word character and j is the end of that word run |
| GoLib.FindSubmatchIsLeftmost | pkg/jenkins/jenkins.go:221-222 | the scan finds something exactly when the pattern matches somewhere; then it returns the capture of a match, and no match starts earlier |
| Jenkins.KeepSegment | pkg/jenkins/jenkins.go:242 | the filter condition shared with ghestimator.go:61: a segment survives unless it is "job", "" or " " |
| Jenkins.FilterSegments | pkg/jenkins/jenkins.go:241-245 | no survivor is "job", "" or " ", and there are no more survivors than segments |
| Jenkins.FilterConcat | pkg/jenkins/jenkins.go:241-245 | filtering distributes over concatenation, so survivors keep their left-to-right order |
| Jenkins.TrimmedJobURL | pkg/jenkins/jenkins.go:236 | TrimSpace, then every trailing '/' removed; ParsedIgnoresPadding and PaddedExample state what this makes the parse ignore |
| Jenkins.ParsedJobPath | pkg/jenkins/jenkins.go:235-248 | the specification of parseJobURL: the name has no '/' and no parent is "job", "" or " " |
| Jenkins.ParseJobURL | pkg/jenkins/jenkins.go:235-248 | the loop's name and parents are the specification ParsedJobPath, and the error is always nil |
| Jenkins.ParsedParentsFiltered | pkg/jenkins/jenkins.go:241-245 | the parent list never contains "job", "" or " " |
| Jenkins.ParsedName | pkg/jenkins/jenkins.go:236-237 | the name is exactly the unfiltered text after the last '/' of the trimmed URL; with no '/', the name is the whole trimmed URL and there are no parents |
| Jenkins.ParsedOneFolder | pkg/jenkins/jenkins.go:235-248 | "folder/name" parses to job `name` inside `folder` |
| Jenkins.NameMayBeJob | pkg/jenkins/jenkins.go:237 | the name is not filtered: "a/job" gives job "job" in folder "a" |
| Jenkins.ParsedIgnoresPadding | pkg/jenkins/jenkins.go:236 | surrounding white space and any number of trailing slashes leave the result unchanged |
| Jenkins.PaddedExample | pkg/jenkins/jenkins.go:236 | " a/b// " parses like "a/b", to job "b" in folder "a" |
| Jenkins.ParseJobURLRoundTrip | pkg/jenkins/jenkins.go:231-248 | for a well-formed job path, parsing its URL form "job/f1/.../job/name/" gives the job path back |
| Jenkins.FoldersSplit | pkg/jenkins/jenkins.go:238-245 | the folder part "job/f1/job/f2/.../job/" splits and filters back to exactly the folders, in order |
| Jenkins.DocumentedExample | pkg/jenkins/jenkins.go:231-233 | "job/ai-foundation/job/abp-code-scan/job/ghenkins/" gives ("ghenkins", ["ai-foundation", "abp-code-scan"]) |
| Jenkins.CompletedTimeUnix | pkg/jenkins/jenkins.go:114 | the scheduled time plus the duration divided by 1000 toward zero; CompletedTimeTruncates and TimeWindowOrdered state its meaning |
| Jenkins.ExecutionStartTimeUnix | pkg/jenkins/jenkins.go:115 | the scheduled time plus duration minus execution time, divided by 1000 toward zero; TimeWindowOrdered and ExecutionStartTruncatesTowardZero state its meaning |
| Jenkins.CompletedTimeTruncates | pkg/jenkins/jenkins.go:114 | the completion time is the scheduled time plus the duration in whole seconds, with less than a second dropped, toward zero |
| Jenkins.TimeWindowOrdered | pkg/jenkins/jenkins.go:114-115 | when 0 <= execution time <= duration: scheduled <= execution start <= completion |
| Jenkins.ExecutionStartTruncatesTowardZero | pkg/jenkins/jenkins.go:115 | a negative waiting time of 1.5 s moves the execution start back 1 s, not 2 |
| Jenkins.FindBuildHostMachineName | pkg/jenkins/jenkins.go:219-228 | the error is returned exactly when no "running on " is followed by a word character, and it is the host-not-found error |
| Jenkins.HostNameIsFirstWordRun | pkg/jenkins/jenkins.go:221-227 | at the first "running on " followed by a word character, the host is the non-empty maximal word run, followed by a non-word character or the end of the log |
| Jenkins.HostNameExample | pkg/jenkins/jenkins.go:221-222 | the match is case-sensitive and '-' ends the name: "Running on x\nrunning on agent-7" gives "agent" |
| Jenkins.SelectBuild | pkg/jenkins/jenkins.go:96-103 | build 0 is the last successful build; any other number is found exactly when the job has it |
| Jenkins.BuildInfoFor | pkg/jenkins/jenkins.go:109-120 | a successful result has ScheduledTimeUnix 0, and its times are ordered when 0 <= execution time <= duration |
| Jenkins.BuildInfoErrors | pkg/jenkins/jenkins.go:91-120 | each error holds exactly when its cause does: no job; then no such build; then no agent line in the log |
| Jenkins.BuildInfoFields | pkg/jenkins/jenkins.go:109-116 | on success every field comes from the job and the selected build; the times are the two derived times and the agent name is the log scan's result |
| Jenkins.GetBuildInfo | pkg/jenkins/jenkins.go:86-126 | the method's result is BuildInfoFor of the job the lookup returns for the parsed URL |
| Instana.HoursSince | pkg/instana/utils.go:137 | whole hours from the window start until now, rounded down (floor) |
| Instana.WindowSizeSeconds | pkg/instana/utils.go:138 | the window in whole seconds, truncated toward zero; UnderLimitMeansShortWindow and RollupMonotone use it |
| Instana.RollupCandidates | pkg/instana/utils.go:140-144 | the age test: under 24 hours the candidates are RecentRollups (1, 5, 60, 300, 3600), otherwise OldRollups (60, 300, 3600); with MaxDataPoints 600 (utils.go:134) and FallbackRollup 1 (utils.go:151); OldDataAtLeastOneMinute and RollupIsFirstFit state what the choice means |
| Instana.CandidatesIncreasing | pkg/instana/utils.go:140-144 | both candidate lists are positive and strictly increasing |
| Instana.FirstFit | pkg/instana/utils.go:146-150 | a found index fits (fewer than 600 intervals) and every earlier candidate does not; None means no candidate fits |
| Instana.RollupSearch | pkg/instana/utils.go:146-150 | the candidate the loop returns from, or None when it falls through; RollupIsFirstFit states that it is the first candidate that fits |
| Instana.ComputeRollupValue | pkg/instana/utils.go:133-152 | the result is one of 1, 5, 60, 300 and 3600 |
| Instana.RollupIsFirstFit | pkg/instana/utils.go:146-151 | a found rollup is a candidate, fits, is the returned value, and every smaller candidate fails; otherwise all fail and the result is 1 |
| Instana.UnderLimitMeansShortWindow | pkg/instana/utils.go:147 | for a non-negative window, fewer than 600 intervals means the window is shorter than 600 rollups, and the converse |
| Instana.OldDataAtLeastOneMinute | pkg/instana/utils.go:137-144 | data 24 or more hours old gets a found rollup of at least 60; the result is never 5 |
| Instana.TooLongWindowFallsBack | pkg/instana/utils.go:146-151 | if even hourly rollups give 600 or more intervals, the result is the fallback 1, whatever the age |
| Instana.RecentHourGetsOneMinute | pkg/instana/utils.go:140-149 | a 3,600,000 ms window within the last 24 hours gets rollup 60 |
| Instana.RollupMonotone | pkg/instana/utils.go:146-150 | for a fixed age, a shorter window never gets a coarser rollup while the longer one still finds a candidate |
| Instana.HostMetricsQuery | pkg/instana/utils.go:36-47 | the request GetHostMetrics sends; HostMetricsQueryMeaning states its fields |
| Instana.HostMetricsQueryMeaning | pkg/instana/utils.go:36-47 | To is the window start in milliseconds; the size, metrics, plugin and host filter are as given; the rollup fits whenever a candidate does |
| Instana.MinFold | pkg/instana/utils.go:61-74 | the running minimum is at most the seed and every value, and equals the seed or one of the values |
| Instana.MaxFold | pkg/instana/utils.go:62-70 | the running maximum is at least the seed and every value, and equals the seed or one of the values |
| Instana.SumValues | pkg/instana/utils.go:66 | the running `sum += j[1]`; SumBounds and SumIgnoresTimestamps state its meaning |
| Instana.SeriesAverage | pkg/instana/utils.go:81 | `sum / len * 100`, NaN for an empty series; AverageBetweenScaledBounds, EmptySeries and SingleSample state its meaning |
| Instana.Summarize | pkg/instana/utils.go:60-83 | the result appended for one metric; SummaryBounds, FoldsFindExtremes and SeedsWinUnlessPassed state its meaning |
| Instana.SummarizeEntries | pkg/instana/utils.go:59-84 | one result per metric entry, in entry order, each the summary of that entry |
| Instana.SummarizeItems | pkg/instana/utils.go:58-85 | the results of all items, item after item; AggregateHostMetrics proves the nested loops compute it |
| Instana.SummarizeSeries | pkg/instana/utils.go:60-83 | the innermost loop's sum, minimum and maximum give exactly the specification summary of the series |
| Instana.AggregateHostMetrics | pkg/instana/utils.go:56-85 | the nested loops produce exactly the specification results, item after item |
| Instana.GetHostMetrics | pkg/instana/utils.go:35-88 | a failed call gives "Error retrieving host metrics: " plus the cause; otherwise the reduction of the answer |
| Instana.SummaryBounds | pkg/instana/utils.go:64-83 | Min is at most and Max at least every sample value; name and data are passed through unchanged |
| Instana.AverageBetweenScaledBounds | pkg/instana/utils.go:81 | for a non-empty series, the average is a number between 100 * Min and 100 * Max |
| Instana.SumBounds | pkg/instana/utils.go:66 | the sum of n values between lo and hi lies between n * lo and n * hi |
| Instana.TimestampsIgnored | pkg/instana/utils.go:64-66 | series with the same values give the same minimum, maximum, sum and average, whatever their timestamps |
| Instana.FoldsFindExtremes | pkg/instana/utils.go:61-74 | when some value reaches past the seed, Min (Max) is one of the series' values |
| Instana.SeedsWinUnlessPassed | pkg/instana/utils.go:61-74 | when no value gets past a seed, that seed is reported |
| Instana.EmptySeries | pkg/instana/utils.go:60-62 | an empty series reports the two seeds and a NaN average |
| Instana.SingleSample | pkg/instana/utils.go:64-81 | a single sample inside the seeds is the minimum and the maximum, and 100 times it is the average |
| Instana.ThreeSampleExample | pkg/instana/utils.go:64-81 | values 10, 20 and 30 give minimum 10, maximum 30 and average 2000 |
| Ghestimator.Survivors | ghestimator.go:56-64 | the components of the white-space-trimmed URL that are none of "job", "" and " ", in order; LegacySplitsSurvivors and FilterIgnoresTrailingSlashes state its meaning |
| Ghestimator.LegacyJobPath | ghestimator.go:65-67 | the last survivor as the name and the ones before it as parents; LegacySplitsSurvivors states its meaning |
| Ghestimator.ParseJobURL | ghestimator.go:55-68 | the loop's result is LegacyJobPath: the last survivor is the name, the rest are the parents; the error is nil |
| Ghestimator.LegacySplitsSurvivors | ghestimator.go:56-67 | parents followed by the name are exactly the survivors; there is one parent fewer than survivors, and none of them is "job", "" or " " |
| Ghestimator.TrailingJobDropped | ghestimator.go:61-67 | a trailing "job" is filtered before the name is chosen: "job/a/job" gives name "a" and no parents |
| Ghestimator.NoSurvivorForBareJob | ghestimator.go:65 | "job/" leaves no survivor, the case where the script indexes out of range |
| Ghestimator.LoneSurvivor | ghestimator.go:65-67 | with exactly one survivor, that survivor is the name and there are no parents |
| Ghestimator.FilterIgnoresTrailingSlashes | ghestimator.go:56-64 | trailing slashes only add empty components, which do not change the survivors |
| Ghestimator.AgreesWithPackageParser | ghestimator.go:55-68 | whenever the package parser's name survives the filter, the script's parser has a survivor and gives the same job path |
| Ghestimator.AgreementNeedsSurvivingName | ghestimator.go:55-68 | the converse: where the two parsers agree, the package parser's name survives the filter |
| Ghestimator.ParsersDifferOnTrailingJob | ghestimator.go:61-67 | on "a/job" the package gives job "job" in folder "a", while the script gives job "a" with no folder |
| Ghestimator.LegacyRoundTrip | ghestimator.go:55-68 | for a well-formed job path whose name survives the filter, the script's parser inverts the URL form |
| Ghestimator.LegacyDocumentedExample | ghestimator.go:50-53 | "job/ai-foundation/job/abp-code-scan/job/ghenkins/" gives (ghenkins, [ai-foundation, abp-code-scan]) |
| Ghestimator.BuildEndTimeUnix | ghestimator.go:118 | the start plus the duration divided by 1000 toward zero; BuildEndTimeMeaning states its meaning |
| Ghestimator.BuildEndTimeMeaning | ghestimator.go:118 | the end time is the package's completion time; for a non-negative duration it is at least the start and less than a second before the exact end |
| Ghestimator.FindNodeName | ghestimator.go:122-129 | None (the panic) exactly when no "Running on " is followed by a word character; otherwise a non-empty run of word characters |
| Ghestimator.NodeNameIsFirstWordRun | ghestimator.go:123-129 | at the first "Running on " followed by a word character, the node is the maximal word run there |
| Ghestimator.NodeNameExample | ghestimator.go:123 | the capital R matters: on "Running on x\nrunning on agent-7" the script finds "x" |
| Ghestimator.PlanRequest | ghestimator.go:118-164 | there is no request exactly when the node scan fails |
| Ghestimator.ScriptMetricsQuery | ghestimator.go:152-166 | the request the script builds; RequestCoversBuild states its fields |
| Ghestimator.RequestCoversBuild | ghestimator.go:152-166 | for a non-negative duration: To is the end time in whole seconds, times 1000, and is within a second of the exact end; the window has the build's duration and so starts less than a second before the build did; the filter names the node; the rollup is fixed at 1 |
| Ghestimator.FixedRollupExceedsLimit | ghestimator.go:145-164 | the fixed rollup ignores the 600-point limit: a build of ten minutes or more asks for at least 600 points |

## Left out

- Network clients are not modelled: creating the Jenkins and Instana clients, and the calls `GetJob`, `GetBuild`, `GetLastSuccessfulBuild`, `GetConsoleOutput`, `GetInfrastructureMetrics`, `GetSnapshots` and `GetSnapshot` (network I/O through external libraries). The job lookup, the build's fields, the console log and the metrics answer are inputs, or function parameters.
- `GetHostConfiguration` (pkg/instana/utils.go:90-123) is left out: it is network calls and type assertions on an untyped map.
- `InstallPlugins`, `ListPlugins`, `SafeRestart` and `GetVersion` are left out: they are JSON decoding, semantic-version comparison from an external module, and remote calls.
- The CLI wiring in cmd/ and the flag parsing and validation of ghestimator.go are left out: they are configuration and user interface.
- The script's `main` is not modelled as a whole. Only its pure steps are: the end time, the node scan and the request. The final printing loop is left out.
- Floating point is not modelled:
  - the `math.Round` of the duration and `int64` of a float duration; the duration is an integer input
  - float32 rounding of sum, min, max and average; values are `real`
  - the seed literals `MaxFloat32` and `SmallestNonzeroFloat32`, which are parameters
  - NaN, which is a constructor of `Average`
- Int64 wrap-around in `* 1000` and in the additions is not modelled: integers are unbounded.
- `BuildInfo.ScheduledTimestamp` is whole Unix seconds (an `int`), where Go keeps a `time.Time` (pkg/jenkins/jenkins.go:111); only its `Unix()` value is used.
- `time.Now()` is the parameter `now`, in Unix seconds.
- Map iteration order is left open: an item's metrics are a sequence in whatever order Go's `range` visits them.
- `log.Printf`, `fmt.Println` (including the one in the script's parser) and all `Print*` functions are left out: they are output only.
- The script's `panic` and out-of-range index are not modelled as failures. They are a `requires` on `Ghestimator.ParseJobURL` and a `None` from `PlanRequest`.
- Error messages of `GetBuildInfo` are `BuildError` constructors rather than formatted strings.
- `GetBuildInfo` also hands back its partly filled `BuildInfo` alongside an error. The model returns only the error.
- A sample is a (timestamp, value) pair. Go indexes `j[1]`, which panics on a shorter sample; the model does not represent that case.
- pkg/jenkins/types.go and pkg/instana/types.go are not part of this model: they declare records and printers only.
