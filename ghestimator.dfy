/**
  The standalone estimator script: its own job-URL parser, the end time of a
  build, the node name it reads from the console log ("Running on ", with a
  capital R) and the one metrics request it sends for the build's window.
*/
module Ghestimator {
  import opened GoLib
  import Jenkins
  import Instana

  // ---------------------------------------------------------------------------
  // parseJobURL (the script's variant)
  // ---------------------------------------------------------------------------

  /** The components of the white-space-trimmed URL split on '/' that are none
      of "job", "" and " ", in their original order. */
  function Survivors(jobURL: string): seq<string> {
    Jenkins.FilterSegments(Split(TrimSpace(jobURL), '/'))
  }

  /** The last survivor is the job, the ones before it are its folders. The
      script indexes the last survivor unguarded, so at least one is needed. */
  function LegacyJobPath(jobURL: string): Jenkins.JobPath
    requires |Survivors(jobURL)| > 0
  {
    var s := Survivors(jobURL);
    Jenkins.JobPath(s[|s| - 1], s[..|s| - 1])
  }

  /** parseJobURL of the script. Its error result is always nil. */
  method ParseJobURL(jobURL: string) returns (name: string, parentIds: seq<string>, err: Option<string>)
    requires |Survivors(jobURL)| > 0
    ensures Jenkins.JobPath(name, parentIds) == LegacyJobPath(jobURL)
    ensures err == None
  {
    var jobComponents := Split(TrimSpace(jobURL), '/');
    var sanitizedJobPath: seq<string> := [];
    for i := 0 to |jobComponents|
      invariant sanitizedJobPath == Jenkins.FilterSegments(jobComponents[..i])
    {
      var s := jobComponents[i];
      Jenkins.FilterStep(jobComponents, i);
      if s != "job" && s != "" && s != " " {
        sanitizedJobPath := sanitizedJobPath + [s];
      }
    }
    TakeAll(jobComponents);
    name := sanitizedJobPath[|sanitizedJobPath| - 1];
    parentIds := sanitizedJobPath[..|sanitizedJobPath| - 1];
    err := None;
  }

  /** The folders followed by the job are exactly the survivors: the job is the
      last one, survives the filter itself, and there is one folder fewer than
      survivors, none of them "job", "" or " ". */
  lemma LegacySplitsSurvivors(jobURL: string)
    requires |Survivors(jobURL)| > 0
    ensures var jp := LegacyJobPath(jobURL);
      jp.parents + [jp.name] == Survivors(jobURL) &&
      |jp.parents| == |Survivors(jobURL)| - 1 &&
      Jenkins.KeepSegment(jp.name) &&
      forall p :: p in jp.parents ==> p != "job" && p != "" && p != " "
  {
    LastAndRest(Survivors(jobURL));
  }

  lemma LastAndRest(s: seq<string>)
    requires |s| > 0 && forall i :: 0 <= i < |s| ==> Jenkins.KeepSegment(s[i])
    ensures s[..|s| - 1] + [s[|s| - 1]] == s
    ensures Jenkins.KeepSegment(s[|s| - 1])
  {
  }

  /** A trailing "job" is dropped before the last survivor is taken:
      "job/a/job" is job "a" with no folders. */
  lemma TrailingJobDropped()
    ensures Survivors("job/a/job") == ["a"]
    ensures LegacyJobPath("job/a/job") == Jenkins.JobPath("a", [])
  {
    SurvivorsJobAJob();
    LoneSurvivor("job/a/job", "a");
  }

  lemma SurvivorsJobAJob()
    ensures Survivors("job/a/job") == ["a"]
  {
    JobAJobTrimmed();
    SplitJobAJob();
    FilterJobAJob();
    SurvivorsOfTrimmedLiteral("job/a/job", ["job", "a", "job"], ["a"]);
  }

  lemma JobAJobTrimmed()
    ensures TrimSpace("job/a/job") == "job/a/job"
  {
    AlreadySpaceTrimmed("job/a/job");
  }

  /** The survivors of a URL without surrounding white space, from its
      components and their survivors. */
  lemma SurvivorsOfTrimmedLiteral(u: string, segs: seq<string>, r: seq<string>)
    requires TrimSpace(u) == u && Split(u, '/') == segs && Jenkins.FilterSegments(segs) == r
    ensures Survivors(u) == r
  {
  }

  /** With exactly one survivor, it is the job and there are no folders. */
  lemma LoneSurvivor(jobURL: string, s: string)
    requires Survivors(jobURL) == [s]
    ensures |Survivors(jobURL)| > 0
    ensures LegacyJobPath(jobURL) == Jenkins.JobPath(s, [])
  {
    assert [s][..0] == [];
  }

  lemma SplitJobAJob()
    ensures Split("job/a/job", '/') == ["job", "a", "job"]
  {
    JobAJobPieces();
    SplitConcat("job", '/', "a/job");
    SplitAJob();
    SplitNoSep("job", '/');
  }

  lemma JobAJobPieces()
    ensures "job/a/job" == "job" + ['/'] + "a/job"
  {
  }

  lemma AJobPieces()
    ensures "a/job" == "a" + ['/'] + "job"
  {
  }

  lemma FilterJobAJob()
    ensures Jenkins.FilterSegments(["job", "a", "job"]) == ["a"]
  {
    TripleConcat("job", "a", "job");
    Jenkins.FilterConcat(["job", "a"], ["job"]);
    FilterJobA();
    Jenkins.FilterSingle("job");
  }

  lemma FilterJobA()
    ensures Jenkins.FilterSegments(["job", "a"]) == ["a"]
  {
    PairConcat("job", "a");
    Jenkins.FilterConcat(["job"], ["a"]);
    Jenkins.FilterSingle("job");
    Jenkins.FilterSingle("a");
  }

  lemma SplitAJob()
    ensures Split("a/job", '/') == ["a", "job"]
  {
    AJobPieces();
    SplitConcat("a", '/', "job");
    SplitNoSep("a", '/');
    SplitNoSep("job", '/');
  }

  lemma FilterAJob()
    ensures Jenkins.FilterSegments(["a", "job"]) == ["a"]
  {
    PairConcat("a", "job");
    Jenkins.FilterConcat(["a"], ["job"]);
    Jenkins.FilterSingle("a");
    Jenkins.FilterSingle("job");
  }

  /** With nothing but "job" and slashes there is no survivor, so the script's
      parser would index out of range. */
  lemma NoSurvivorForBareJob()
    ensures Survivors("job/") == []
  {
    BareJobTrimmed();
    Jenkins.BareJobSegments();
    SurvivorsOfTrimmedLiteral("job/", ["job", ""], []);
  }

  lemma BareJobTrimmed()
    ensures TrimSpace("job/") == "job/"
  {
    AlreadySpaceTrimmed("job/");
  }

  /** Slashes at the end only add empty components, which the filter drops. */
  lemma {:induction false} FilterIgnoresTrailingSlashes(x: string, k: nat)
    ensures Jenkins.FilterSegments(Split(x + Repeat('/', k), '/')) == Jenkins.FilterSegments(Split(x, '/'))
    decreases k
  {
    if k == 0 {
      NoSlashesAppended(x);
    } else {
      OneMoreSlash(x, k - 1);
      FilterSplitTrailingSlash(x + Repeat('/', k - 1));
      FilterIgnoresTrailingSlashes(x, k - 1);
    }
  }

  lemma NoSlashesAppended(x: string)
    ensures x + Repeat('/', 0) == x
  {
  }

  lemma OneMoreSlash(x: string, k: nat)
    ensures x + Repeat('/', k + 1) == (x + Repeat('/', k)) + ['/'] + []
  {
  }

  /** One trailing slash adds one empty component, which the filter drops. */
  lemma FilterSplitTrailingSlash(y: string)
    ensures Jenkins.FilterSegments(Split(y + ['/'] + [], '/')) == Jenkins.FilterSegments(Split(y, '/'))
  {
    SplitConcat(y, '/', []);
    SplitEmpty('/');
    Jenkins.FilterConcat(Split(y, '/'), [[]]);
    Jenkins.FilterSingle([]);
  }

  /** TrimRight with cutset "/" removes a run of slashes and nothing else. */
  lemma TrimRightLeavesSlashes(s: string)
    ensures var t := TrimRight(s, "/"); s == t + Repeat('/', |s| - |t|)
  {
    var t := TrimRight(s, "/");
    var rest := s[|t|..];
    assert rest == Repeat('/', |s| - |t|);
    assert s == s[..|t|] + rest;
  }

  /** The two parsers agree whenever the job name the package's parser reads
      would itself survive the filter (it is not "job", "" or " "). */
  lemma AgreesWithPackageParser(jobURL: string)
    requires Jenkins.KeepSegment(Jenkins.ParsedJobPath(jobURL).name)
    ensures |Survivors(jobURL)| > 0
    ensures LegacyJobPath(jobURL) == Jenkins.ParsedJobPath(jobURL)
  {
    var t := Jenkins.TrimmedJobURL(jobURL);
    SurvivorsOfTrimmed(jobURL);
    FilterSplitAtLast(t);
    var jp := Jenkins.ParsedJobPath(jobURL);
    assert Survivors(jobURL) == jp.parents + [jp.name];
  }

  /** The converse: where the two parsers agree, the package's job name
      survives the filter, since the script's name is always a survivor. */
  lemma AgreementNeedsSurvivingName(jobURL: string)
    requires |Survivors(jobURL)| > 0 && LegacyJobPath(jobURL) == Jenkins.ParsedJobPath(jobURL)
    ensures Jenkins.KeepSegment(Jenkins.ParsedJobPath(jobURL).name)
  {
    LegacySplitsSurvivors(jobURL);
  }

  /** Removing the trailing slashes first does not change the survivors. */
  lemma SurvivorsOfTrimmed(jobURL: string)
    ensures Survivors(jobURL) == Jenkins.FilterSegments(Split(Jenkins.TrimmedJobURL(jobURL), '/'))
  {
    var s := TrimSpace(jobURL);
    var t := TrimRight(s, "/");
    TrimRightLeavesSlashes(s);
    FilterIgnoresTrailingSlashes(t, |s| - |t|);
  }

  /** The survivors of a path whose last component survives are the survivors
      of its directory part followed by that component. */
  lemma FilterSplitAtLast(t: string)
    requires Jenkins.KeepSegment(PathSplit(t).1)
    ensures Jenkins.FilterSegments(Split(t, '/')) ==
            Jenkins.FilterSegments(Split(PathSplit(t).0, '/')) + [PathSplit(t).1]
  {
    var d, f := PathSplit(t).0, PathSplit(t).1;
    if d == [] {
      EmptyDirectory(d, f);
      FilterSplitLone(f);
    } else {
      var d' := d[..|d| - 1];
      DirectoryPieces(d, f);
      FilterSplitSep(d', f);
      FilterSplitTrailingSlash(d');
    }
  }

  lemma EmptyDirectory(d: string, f: string)
    requires d == []
    ensures d + f == f
  {
  }

  lemma DirectoryPieces(d: string, f: string)
    requires d != [] && d[|d| - 1] == '/'
    ensures d == d[..|d| - 1] + ['/'] + []
    ensures d + f == d[..|d| - 1] + ['/'] + f
  {
  }

  /** A path of one surviving component. */
  lemma FilterSplitLone(f: string)
    requires '/' !in f && Jenkins.KeepSegment(f)
    ensures Jenkins.FilterSegments(Split(f, '/')) == Jenkins.FilterSegments(Split([], '/')) + [f]
  {
    SplitNoSep(f, '/');
    Jenkins.FilterSingle(f);
    SplitEmpty('/');
    Jenkins.FilterSingle([]);
  }

  /** A surviving last component after a slash is appended to the survivors. */
  lemma FilterSplitSep(d: string, f: string)
    requires '/' !in f && Jenkins.KeepSegment(f)
    ensures Jenkins.FilterSegments(Split(d + ['/'] + f, '/')) ==
            Jenkins.FilterSegments(Split(d, '/')) + [f]
  {
    SplitConcat(d, '/', f);
    SplitNoSep(f, '/');
    Jenkins.FilterConcat(Split(d, '/'), [f]);
    Jenkins.FilterSingle(f);
  }

  /** Where they differ: for "a/job" the package's parser names the job "job"
      inside folder "a", the script's names it "a" with no folders. */
  lemma ParsersDifferOnTrailingJob()
    ensures Jenkins.ParsedJobPath("a/job") == Jenkins.JobPath("job", ["a"])
    ensures Survivors("a/job") == ["a"]
    ensures LegacyJobPath("a/job") == Jenkins.JobPath("a", [])
  {
    Jenkins.NameMayBeJob();
    SurvivorsAJob();
    LoneSurvivor("a/job", "a");
  }

  lemma SurvivorsAJob()
    ensures Survivors("a/job") == ["a"]
  {
    AJobTrimmed();
    SplitAJob();
    FilterAJob();
    SurvivorsOfTrimmedLiteral("a/job", ["a", "job"], ["a"]);
  }

  lemma AJobTrimmed()
    ensures TrimSpace("a/job") == "a/job"
  {
    AlreadySpaceTrimmed("a/job");
  }

  /** The script's parser inverts the URL form too, for jobs whose own name
      survives the filter. */
  lemma LegacyRoundTrip(jp: Jenkins.JobPath)
    requires Jenkins.WellFormedJobPath(jp) && Jenkins.KeepSegment(jp.name)
    ensures |Survivors(Jenkins.JobURL(jp))| > 0
    ensures LegacyJobPath(Jenkins.JobURL(jp)) == jp
  {
    Jenkins.ParseJobURLRoundTrip(jp);
    AgreesWithPackageParser(Jenkins.JobURL(jp));
  }

  /** The example in the doc comment of the script's parseJobURL. */
  lemma LegacyDocumentedExample()
    ensures |Survivors("job/ai-foundation/job/abp-code-scan/job/ghenkins/")| > 0
    ensures LegacyJobPath("job/ai-foundation/job/abp-code-scan/job/ghenkins/") ==
            Jenkins.JobPath("ghenkins", ["ai-foundation", "abp-code-scan"])
  {
    Jenkins.DocumentedExample();
    AgreesWithPackageParser("job/ai-foundation/job/abp-code-scan/job/ghenkins/");
  }

  // ---------------------------------------------------------------------------
  // Build end time
  // ---------------------------------------------------------------------------

  /** The build's start plus its duration in whole seconds, truncated toward zero. */
  function BuildEndTimeUnix(startUnix: int, durationMs: int): int {
    startUnix + TruncDiv(durationMs, 1000)
  }

  /** The script's end time is the package's completion time for the same
      start and duration, and a build of non-negative duration ends no earlier
      than it starts, less than a second before its exact end. */
  lemma BuildEndTimeMeaning(startUnix: int, durationMs: int)
    ensures BuildEndTimeUnix(startUnix, durationMs) == Jenkins.CompletedTimeUnix(startUnix, durationMs)
    ensures durationMs >= 0 ==>
      startUnix <= BuildEndTimeUnix(startUnix, durationMs) &&
      1000 * BuildEndTimeUnix(startUnix, durationMs) <= 1000 * startUnix + durationMs <
        1000 * BuildEndTimeUnix(startUnix, durationMs) + 1000
  {
  }

  // ---------------------------------------------------------------------------
  // Node name
  // ---------------------------------------------------------------------------

  /** The literal of the pattern `Running on \b([\w]+\b)`. */
  const NodeMarker := "Running on "

  /** The capture of the pattern on the build log; None where the script panics. */
  function FindNodeName(buildLog: string): (r: Option<string>)
    ensures r.None? <==> forall k: nat :: !MatchesAt(buildLog, NodeMarker, k)
    ensures r.Some? ==> |r.value| > 0 && forall k :: 0 <= k < |r.value| ==> IsWordChar(r.value[k])
  {
    FindSubmatch(buildLog, NodeMarker)
  }

  /** The node name is the whole word-character run after the first
      "Running on " that a word character follows. */
  lemma NodeNameIsFirstWordRun(buildLog: string, i: nat)
    requires MatchesAt(buildLog, NodeMarker, i)
    requires forall k: nat :: k < i ==> !MatchesAt(buildLog, NodeMarker, k)
    ensures var e := WordRunEnd(buildLog, i + |NodeMarker|);
      e > i + |NodeMarker| &&
      FindNodeName(buildLog) == Some(buildLog[i + |NodeMarker|..e]) &&
      (e == |buildLog| || !IsWordChar(buildLog[e]))
  {
    var r := FindFrom(buildLog, NodeMarker, 0);
    assert r.Some? && r.value == i;
  }

  /** The capital R matters: on the package's example log the script finds
      "x", while the package finds "agent". */
  lemma NodeNameExample()
    ensures FindNodeName(Jenkins.ExampleLog) == Some("x")
  {
    var t := Jenkins.ExampleLog;
    assert t[0..11] == NodeMarker;
    assert MatchesAt(t, NodeMarker, 0);
    assert WordRunEnd(t, 12) == 12;
    assert WordRunEnd(t, 11) == 12;
    NodeNameIsFirstWordRun(t, 0);
    assert t[11..12] == "x";
  }

  // ---------------------------------------------------------------------------
  // The metrics request
  // ---------------------------------------------------------------------------

  /** The metrics the script asks for. */
  const ScriptMetrics: seq<string> := ["cpu.used", "load.1min", "memory.used"]

  /** The request the script sends: the window of the build's duration ending
      at its end time, one-second rollup. */
  function ScriptMetricsQuery(nodeName: string, buildEndTimeUnix: int, durationMs: int): Instana.MetricsQuery {
    Instana.MetricsQuery(ScriptMetrics, "host", Instana.HostQueryPrefix + nodeName,
                         buildEndTimeUnix * 1000, durationMs, 1)
  }

  /** What the script computes between fetching the build and calling the
      metrics API; None where it panics for want of a node name. */
  function PlanRequest(startUnix: int, durationMs: int, buildLog: string): (r: Option<Instana.MetricsQuery>)
    ensures r.None? <==> FindNodeName(buildLog).None?
  {
    match FindNodeName(buildLog)
    case None => None
    case Some(nodeName) => Some(ScriptMetricsQuery(nodeName, BuildEndTimeUnix(startUnix, durationMs), durationMs))
  }

  /** The requested window ends at the build's end rounded down to a whole
      second and is as long as the build, so it starts less than a second
      before the build did; the filter names the node. */
  lemma RequestCoversBuild(startUnix: int, durationMs: int, buildLog: string)
    requires PlanRequest(startUnix, durationMs, buildLog).Some?
    requires durationMs >= 0
    ensures var q := PlanRequest(startUnix, durationMs, buildLog).value;
      q.to % 1000 == 0 && q.windowSize == durationMs &&
      q.to <= 1000 * startUnix + durationMs < q.to + 1000 &&
      1000 * startUnix - 1000 < q.to - q.windowSize <= 1000 * startUnix &&
      q.query == Instana.HostQueryPrefix + FindNodeName(buildLog).value &&
      q.metrics == ScriptMetrics && q.plugin == "host" && q.rollup == 1
  {
    BuildEndTimeMeaning(startUnix, durationMs);
    WholeSecondsInMillis(BuildEndTimeUnix(startUnix, durationMs));
  }

  lemma WholeSecondsInMillis(secs: int)
    ensures secs * 1000 == 1000 * secs && (secs * 1000) % 1000 == 0
  {
  }

  /** The fixed one-second rollup ignores the 600-point limit: a build of ten
      minutes or more asks for at least 600 points per metric. */
  lemma FixedRollupExceedsLimit(startUnix: int, durationMs: int, buildLog: string)
    requires PlanRequest(startUnix, durationMs, buildLog).Some?
    requires durationMs >= 600000
    ensures var q := PlanRequest(startUnix, durationMs, buildLog).value;
      TruncDiv(Instana.WindowSizeSeconds(q.windowSize), q.rollup) >= Instana.MaxDataPoints
  {
    TruncDivMonotone(600000, durationMs, 1000);
  }
}
