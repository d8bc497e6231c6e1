/**
  The Jenkins side of the correlation: turning a job URL into the job name and
  folder path that the Jenkins client looks jobs up by, deriving a build's
  completion and execution-start times from its duration fields, and finding
  the agent machine's name in the build's console log.
*/
module Jenkins {
  import opened GoLib

  // ---------------------------------------------------------------------------
  // Job URLs
  // ---------------------------------------------------------------------------

  /** A job's name and the names of the folders above it, outermost first. */
  datatype JobPath = JobPath(name: string, parents: seq<string>)

  /** The segments that survive the filter: everything but the structural
      marker "job", the empty string and a single space. */
  predicate KeepSegment(s: string) {
    s != "job" && s != "" && s != " "
  }

  /** The segments that survive, in the order they come in. */
  function FilterSegments(segs: seq<string>): (r: seq<string>)
    ensures |r| <= |segs|
    ensures forall i :: 0 <= i < |r| ==> KeepSegment(r[i])
    decreases |segs|
  {
    if segs == [] then []
    else
      var last := segs[|segs| - 1];
      FilterSegments(segs[..|segs| - 1]) + (if KeepSegment(last) then [last] else [])
  }

  /** One more segment is appended when it survives. */
  lemma FilterStep(segs: seq<string>, i: nat)
    requires i < |segs|
    ensures FilterSegments(segs[..i + 1]) == FilterSegments(segs[..i]) + if KeepSegment(segs[i]) then [segs[i]] else []
  {
    TakeOneMore(segs, i);
  }

  /** Filtering commutes with concatenation, so the survivors keep the
      left-to-right order of the input. */
  lemma {:induction false} FilterConcat(a: seq<string>, b: seq<string>)
    ensures FilterSegments(a + b) == FilterSegments(a) + FilterSegments(b)
    decreases |b|
  {
    if b == [] {
      assert a + b == a;
    } else {
      assert (a + b)[..|a + b| - 1] == a + b[..|b| - 1];
      FilterConcat(a, b[..|b| - 1]);
    }
  }

  /** The job URL with surrounding white space and every trailing '/' removed. */
  function TrimmedJobURL(jobURL: string): string {
    TrimRight(TrimSpace(jobURL), "/")
  }

  /** What parseJobURL computes: the text after the last '/' of the trimmed URL
      is the job name, unfiltered, and the surviving segments of the text
      before it are the parents. */
  function ParsedJobPath(jobURL: string): (r: JobPath)
    ensures '/' !in r.name
    ensures forall i :: 0 <= i < |r.parents| ==> KeepSegment(r.parents[i])
  {
    var split := PathSplit(TrimmedJobURL(jobURL));
    JobPath(split.1, FilterSegments(Split(split.0, '/')))
  }

  /** parseJobURL. The Go function's error result is always nil. */
  method ParseJobURL(jobURL: string) returns (name: string, parentIds: seq<string>, err: Option<string>)
    ensures JobPath(name, parentIds) == ParsedJobPath(jobURL)
    ensures err == None
  {
    var jobURLTrimmed := TrimRight(TrimSpace(jobURL), "/");
    var split := PathSplit(jobURLTrimmed);
    var segments := Split(split.0, '/');
    parentIds := [];
    for i := 0 to |segments|
      invariant parentIds == FilterSegments(segments[..i])
    {
      var s := segments[i];
      FilterStep(segments, i);
      if s != "job" && s != "" && s != " " {
        parentIds := parentIds + [s];
      }
    }
    TakeAll(segments);
    name, err := split.1, None;
  }

  /** The parent list never holds "job", "" or " ". This is the fact the second
      ensures of ParsedJobPath gives by index, stated here on its own as the
      headline property of the filter, with `in`. */
  lemma ParsedParentsFiltered(jobURL: string)
    ensures forall p :: p in ParsedJobPath(jobURL).parents ==> p != "job" && p != "" && p != " "
  {
  }

  /** The name is exactly the text after the last '/' of the trimmed URL, with
      nothing filtered out of it; when the trimmed URL has no '/', the name is
      all of it and there are no parents. */
  lemma ParsedName(jobURL: string)
    ensures var t, jp := TrimmedJobURL(jobURL), ParsedJobPath(jobURL);
      '/' !in jp.name && |jp.name| <= |t| && t[|t| - |jp.name|..] == jp.name &&
      (|jp.name| < |t| ==> t[|t| - |jp.name| - 1] == '/')
    ensures '/' !in TrimmedJobURL(jobURL) ==> ParsedJobPath(jobURL) == JobPath(TrimmedJobURL(jobURL), [])
  {
    var t := TrimmedJobURL(jobURL);
    var p := PathSplit(t);
    assert ParsedJobPath(jobURL) == JobPath(p.1, FilterSegments(Split(p.0, '/')));
    assert t == p.0 + p.1;
    assert t[|p.0|..] == p.1;
    if '/' !in t {
      SplitEmpty('/');
      assert FilterSegments([[]]) == FilterSegments([]) + [];
    }
  }

  /** A trimmed URL "folder/name" is job `name` inside `folder`. */
  lemma ParsedOneFolder(folder: string, name: string)
    requires PathSegment(folder) && name != [] && '/' !in name
    requires SpaceTrimmed(folder + "/" + name)
    ensures ParsedJobPath(folder + "/" + name) == JobPath(name, [folder])
  {
    var u := folder + "/" + name;
    assert u[|u| - 1] == name[|name| - 1];
    AlreadyTrimmed(u);
    assert u == (folder + "/") + name;
    PathSplitAt(folder + "/", name);
    OneFolderSegments(folder);
  }

  /** A URL without surrounding white space or trailing '/' is its own trimmed form. */
  lemma AlreadyTrimmed(u: string)
    requires SpaceTrimmed(u) && (u == [] || u[|u| - 1] != '/')
    ensures TrimmedJobURL(u) == u
  {
    AlreadySpaceTrimmed(u);
    NoTrailingSlash(u);
  }

  lemma NoTrailingSlash(u: string)
    requires u == [] || u[|u| - 1] != '/'
    ensures TrimRight(u, "/") == u
  {
  }

  lemma OneFolderSegments(folder: string)
    requires PathSegment(folder)
    ensures FilterSegments(Split(folder + "/", '/')) == [folder]
  {
    assert folder + "/" == folder + ['/'] + [];
    SplitConcat(folder, '/', []);
    SplitNoSep(folder, '/');
    SplitEmpty('/');
    FilterConcat([folder], [[]]);
    FilterSingle(folder);
    FilterSingle([]);
  }

  /** The name is not filtered: "a/job" names the job "job" inside folder "a". */
  lemma NameMayBeJob()
    ensures ParsedJobPath("a/job") == JobPath("job", ["a"])
  {
    assert "a" + "/" + "job" == "a/job";
    ParsedOneFolder("a", "job");
  }

  /** Surrounding white space and any number of trailing slashes do not change the result. */
  lemma ParsedIgnoresPadding(w1: string, s: string, k: nat, w2: string)
    requires AllSpace(w1) && AllSpace(w2) && SpaceTrimmed(s)
    ensures ParsedJobPath(w1 + s + Repeat('/', k) + w2) == ParsedJobPath(s)
  {
    TrimmedIgnoresPadding(w1, s, k, w2);
    SameTrimmedSameParse(w1 + s + Repeat('/', k) + w2, s);
  }

  lemma TrimmedIgnoresPadding(w1: string, s: string, k: nat, w2: string)
    requires AllSpace(w1) && AllSpace(w2) && SpaceTrimmed(s)
    ensures TrimmedJobURL(w1 + s + Repeat('/', k) + w2) == TrimmedJobURL(s)
  {
    var slashed := s + Repeat('/', k);
    SlashesKeepTrimmed(s, k);
    assert w1 + s + Repeat('/', k) + w2 == w1 + slashed + w2;
    TrimSpaceOfPadded(w1, slashed, w2);
    AlreadySpaceTrimmed(s);
    TrimRightOfSlashes(s, k);
  }

  lemma SlashesKeepTrimmed(s: string, k: nat)
    requires SpaceTrimmed(s)
    ensures SpaceTrimmed(s + Repeat('/', k))
  {
    var slashed := s + Repeat('/', k);
    if s == [] {
      assert slashed == Repeat('/', k);
    } else {
      assert slashed[0] == s[0];
    }
  }

  lemma SameTrimmedSameParse(u1: string, u2: string)
    requires TrimmedJobURL(u1) == TrimmedJobURL(u2)
    ensures ParsedJobPath(u1) == ParsedJobPath(u2)
  {
  }

  /** " a/b// " parses as "a/b" does: job "b" in folder "a". */
  lemma PaddedExample()
    ensures ParsedJobPath(" a/b// ") == ParsedJobPath("a/b") == JobPath("b", ["a"])
  {
    PaddedExampleTrim();
    UnpaddedExample();
  }

  lemma UnpaddedExample()
    ensures ParsedJobPath("a/b") == JobPath("b", ["a"])
  {
    assert "a" + "/" + "b" == "a/b";
    ParsedOneFolder("a", "b");
  }

  lemma PaddedExampleTrim()
    ensures ParsedJobPath(" a/b// ") == ParsedJobPath("a/b")
  {
    assert " " + "a/b" + Repeat('/', 2) + " " == " a/b// " by {
      assert Repeat('/', 2) == "//";
    }
    assert AllSpace(" ") && SpaceTrimmed("a/b");
    ParsedIgnoresPadding(" ", "a/b", 2, " ");
  }

  // ---------------------------------------------------------------------------
  // The URL form of a job path, and the round trip through parseJobURL
  // ---------------------------------------------------------------------------

  /** The path Jenkins gives a job: "job/<folder>/" per folder, then "job/<name>/". */
  function JobURL(jp: JobPath): string {
    FolderURL(jp.parents) + "job/" + jp.name + "/"
  }

  function FolderURL(parents: seq<string>): string
    decreases |parents|
  {
    if parents == [] then [] else "job/" + parents[0] + "/" + FolderURL(parents[1..])
  }

  /** A folder name that can appear in a job URL and survive the filter. */
  predicate PathSegment(s: string) {
    KeepSegment(s) && '/' !in s
  }

  /** A job path the URL form can carry: a non-empty name without '/', and folder
      names that contain no '/' and are none of the filtered-out segments. */
  predicate WellFormedJobPath(jp: JobPath) {
    jp.name != [] && '/' !in jp.name && forall i :: 0 <= i < |jp.parents| ==> PathSegment(jp.parents[i])
  }

  /** parseJobURL inverts the URL form. */
  lemma ParseJobURLRoundTrip(jp: JobPath)
    requires WellFormedJobPath(jp)
    ensures ParsedJobPath(JobURL(jp)) == jp
  {
    var folders := FolderURL(jp.parents) + "job/";
    var body := folders + jp.name;
    assert JobURL(jp) == body + "/";
    assert body[0] == 'j';
    assert body[|body| - 1] == jp.name[|jp.name| - 1];
    TrimmedDropsOneSlash(body);
    PathSplitAt(folders, jp.name);
    FoldersSplit(jp.parents);
  }

  /** A URL that starts with a non-space and ends in a single '/' trims to what precedes the '/'. */
  lemma TrimmedDropsOneSlash(body: string)
    requires body != [] && !IsSpace(body[0]) && body[|body| - 1] != '/'
    ensures TrimmedJobURL(body + "/") == body
  {
    var u := body + "/";
    assert u[0] == body[0] && u[|u| - 1] == '/';
    AlreadySpaceTrimmed(u);
    assert u == body + Repeat('/', 1);
    TrimRightOfSlashes(body, 1);
    NoTrailingSlash(body);
  }

  /** The folder part "job/p0/job/p1/.../job/" splits and filters back to the folders. */
  lemma {:induction false} FoldersSplit(parents: seq<string>)
    requires forall i :: 0 <= i < |parents| ==> PathSegment(parents[i])
    ensures FilterSegments(Split(FolderURL(parents) + "job/", '/')) == parents
    decreases |parents|
  {
    if parents == [] {
      assert FolderURL(parents) + "job/" == "job/";
      BareJobSegments();
    } else {
      var p, rest := parents[0], parents[1..];
      var tail := FolderURL(rest) + "job/";
      FolderURLStep(parents);
      SplitFolderStep(p, tail);
      FolderSplitStep(p, Split(tail, '/'));
      FoldersSplit(rest);
      ConsTail(parents);
    }
  }

  /** "job/" has no surviving segment. */
  lemma BareJobSegments()
    ensures Split("job/", '/') == ["job", ""]
    ensures FilterSegments(["job", ""]) == []
  {
    BareJobSplit();
    BareJobFilter();
  }

  lemma BareJobSplit()
    ensures Split("job/", '/') == ["job", ""]
  {
    BareJobPieces();
    SplitConcat("job", '/', []);
    SplitNoSep("job", '/');
    SplitEmpty('/');
  }

  lemma BareJobPieces()
    ensures "job/" == "job" + ['/'] + []
  {
  }

  lemma BareJobFilter()
    ensures FilterSegments(["job", ""]) == []
  {
    PairConcat("job", "");
    FilterConcat(["job"], [""]);
    FilterSingle("job");
    FilterSingle("");
  }

  lemma FolderURLStep(parents: seq<string>)
    requires parents != []
    ensures FolderURL(parents) + "job/" == "job" + ['/'] + (parents[0] + ['/'] + (FolderURL(parents[1..]) + "job/"))
  {
  }

  lemma SplitFolderStep(p: string, tail: string)
    requires '/' !in p
    ensures Split("job" + ['/'] + (p + ['/'] + tail), '/') == ["job"] + ([p] + Split(tail, '/'))
  {
    SplitConcat("job", '/', p + ['/'] + tail);
    SplitConcat(p, '/', tail);
    SplitNoSep("job", '/');
    SplitNoSep(p, '/');
  }

  lemma FolderSplitStep(p: string, tail: seq<string>)
    requires KeepSegment(p)
    ensures FilterSegments(["job"] + ([p] + tail)) == [p] + FilterSegments(tail)
  {
    FilterConcat(["job"], [p] + tail);
    FilterConcat([p], tail);
    FilterSingle("job");
    FilterSingle(p);
  }

  /** A single segment survives exactly when it is kept. */
  lemma FilterSingle(s: string)
    ensures FilterSegments([s]) == if KeepSegment(s) then [s] else []
  {
    assert [s][..0] == [];
  }

  /** The example in parseJobURL's doc comment. */
  lemma DocumentedExample()
    ensures ParsedJobPath("job/ai-foundation/job/abp-code-scan/job/ghenkins/") ==
            JobPath("ghenkins", ["ai-foundation", "abp-code-scan"])
  {
    var jp := JobPath("ghenkins", ["ai-foundation", "abp-code-scan"]);
    DocumentedExampleURL();
    assert PathSegment("ai-foundation") && PathSegment("abp-code-scan");
    ParseJobURLRoundTrip(jp);
  }

  lemma DocumentedExampleURL()
    ensures JobURL(JobPath("ghenkins", ["ai-foundation", "abp-code-scan"])) ==
            "job/ai-foundation/job/abp-code-scan/job/ghenkins/"
  {
    DocumentedFolders();
    DocumentedLeaf("job/ai-foundation/job/abp-code-scan/");
    DocumentedWhole();
  }

  lemma DocumentedWhole()
    ensures "job/ai-foundation/job/abp-code-scan/" + "job/ghenkins/" ==
            "job/ai-foundation/job/abp-code-scan/job/ghenkins/"
  {
  }

  lemma DocumentedLeaf(x: string)
    ensures x + "job/" + "ghenkins" + "/" == x + "job/ghenkins/"
  {
    assert "job/" + "ghenkins" + "/" == "job/ghenkins/";
  }

  lemma DocumentedFolders()
    ensures FolderURL(["ai-foundation", "abp-code-scan"]) == "job/ai-foundation/job/abp-code-scan/"
  {
    DocumentedOuterFolder();
    DocumentedInnerFolder();
    DocumentedOuterPrefix();
    DocumentedFolderPair();
  }

  lemma DocumentedOuterPrefix()
    ensures "job/" + "ai-foundation" + "/" == "job/ai-foundation/"
  {
  }

  lemma DocumentedFolderPair()
    ensures "job/ai-foundation/" + "job/abp-code-scan/" == "job/ai-foundation/job/abp-code-scan/"
  {
  }

  lemma DocumentedOuterFolder()
    ensures FolderURL(["ai-foundation", "abp-code-scan"]) == "job/" + "ai-foundation" + "/" + FolderURL(["abp-code-scan"])
  {
    assert ["ai-foundation", "abp-code-scan"][1..] == ["abp-code-scan"];
  }

  lemma DocumentedInnerFolder()
    ensures FolderURL(["abp-code-scan"]) == "job/abp-code-scan/"
  {
    assert ["abp-code-scan"][1..] == [];
  }

  // ---------------------------------------------------------------------------
  // Build time window
  // ---------------------------------------------------------------------------

  /** CompletedTimeUnix: the scheduled time plus the whole seconds of the
      duration, truncated toward zero as Go's int64 division does. */
  function CompletedTimeUnix(scheduledUnix: int, durationMs: int): int {
    scheduledUnix + TruncDiv(durationMs, 1000)
  }

  /** ExecutionStartTimeUnix: the scheduled time plus the whole seconds spent
      waiting, i.e. duration minus execution time, truncated toward zero. */
  function ExecutionStartTimeUnix(scheduledUnix: int, durationMs: int, executionTimeMs: int): int {
    scheduledUnix + TruncDiv(durationMs - executionTimeMs, 1000)
  }

  /** A build that ran no longer than it lasted starts executing between its
      scheduling and its completion. */
  lemma TimeWindowOrdered(scheduledUnix: int, durationMs: int, executionTimeMs: int)
    requires 0 <= executionTimeMs <= durationMs
    ensures scheduledUnix <= ExecutionStartTimeUnix(scheduledUnix, durationMs, executionTimeMs)
                          <= CompletedTimeUnix(scheduledUnix, durationMs)
  {
    TruncDivMonotone(0, durationMs - executionTimeMs, 1000);
    TruncDivMonotone(durationMs - executionTimeMs, durationMs, 1000);
  }

  /** The completion time is the duration in whole seconds, rounded toward
      zero: under a second of it is dropped, in either direction. */
  lemma CompletedTimeTruncates(scheduledUnix: int, durationMs: int)
    ensures var secs := CompletedTimeUnix(scheduledUnix, durationMs) - scheduledUnix;
      (durationMs >= 0 ==> 1000 * secs <= durationMs < 1000 * secs + 1000) &&
      (durationMs < 0 ==> 1000 * secs - 1000 < durationMs <= 1000 * secs)
  {
  }

  /** Truncation is not flooring: 1.5 s of negative waiting time moves the
      execution start back by one second, not two. */
  lemma ExecutionStartTruncatesTowardZero()
    ensures ExecutionStartTimeUnix(100, 1000, 2500) == 99
  {
  }

  // ---------------------------------------------------------------------------
  // Build agent name
  // ---------------------------------------------------------------------------

  /** The literal of the pattern `running on \b([\w]+\b)`. */
  const HostMarker := "running on "

  datatype BuildError = JobNotFound(jobURL: string) | BuildNotFound(id: int) | HostNotFound

  /** findBuildHostMachineName on the text of the console log. */
  function FindBuildHostMachineName(consoleLog: string): (r: Result<string, BuildError>)
    ensures r.Err? <==> forall k: nat :: !MatchesAt(consoleLog, HostMarker, k)
    ensures r.Err? ==> r.error == HostNotFound
  {
    match FindSubmatch(consoleLog, HostMarker)
    case None => Err(HostNotFound)
    case Some(h) => Ok(h)
  }

  /** The host name is the whole run of word characters after the first
      "running on " that a word character follows: it is not empty, and the
      text after it is a non-word character or the end of the log. */
  lemma HostNameIsFirstWordRun(consoleLog: string, i: nat)
    requires MatchesAt(consoleLog, HostMarker, i)
    requires forall k: nat :: k < i ==> !MatchesAt(consoleLog, HostMarker, k)
    ensures var e := WordRunEnd(consoleLog, i + |HostMarker|);
      e > i + |HostMarker| &&
      FindBuildHostMachineName(consoleLog) == Ok(consoleLog[i + |HostMarker|..e]) &&
      (e == |consoleLog| || !IsWordChar(consoleLog[e]))
  {
    var r := FindFrom(consoleLog, HostMarker, 0);
    assert r.Some? && r.value == i;
  }

  /** A console log whose first line has the wrong case for the pattern. */
  const ExampleLog := "Running on x\nrunning on agent-7"

  /** The match is case-sensitive and '-' ends the name: in ExampleLog the
      host is "agent". */
  lemma HostNameExample()
    ensures FindBuildHostMachineName(ExampleLog) == Ok("agent")
  {
    ExampleLogFirstMatch();
    ExampleLogRun();
    HostNameIsFirstWordRun(ExampleLog, 13);
  }

  lemma ExampleLogFirstMatch()
    ensures MatchesAt(ExampleLog, HostMarker, 13)
    ensures forall k: nat :: k < 13 ==> !MatchesAt(ExampleLog, HostMarker, k)
  {
    assert ExampleLog[13..24] == HostMarker;
    forall k: nat | k < 13 ensures !MatchesAt(ExampleLog, HostMarker, k) {
      assert ExampleLog[k] != HostMarker[0];
    }
  }

  lemma ExampleLogRun()
    ensures WordRunEnd(ExampleLog, 24) == 29 && ExampleLog[24..29] == "agent"
  {
    assert WordRunEnd(ExampleLog, 29) == 29;
  }

  // ---------------------------------------------------------------------------
  // GetBuildInfo
  // ---------------------------------------------------------------------------

  /** What the Jenkins client reports about one build: its number, its
      scheduled time in Unix seconds, its duration (already rounded to whole
      milliseconds), its execution time and its console log. */
  datatype Build = Build(number: int, timestampUnix: int, durationMs: int, executionTimeMs: int, consoleLog: string)

  /** What the Jenkins client reports about one job: its full name, its last
      successful build if any, and its builds by number. */
  datatype Job = Job(fullName: string, lastSuccessfulBuild: Option<Build>, builds: map<int, Build>)

  datatype BuildInfo = BuildInfo(
    jobName: string,
    buildID: int,
    scheduledTimestamp: int,
    scheduledTimeUnix: int,
    executionStartTimeUnix: int,
    completedTimeUnix: int,
    durationMs: int,
    executionTimeMs: int,
    agentHostMachine: string)

  /** Build 0 means the last successful build; any other number is looked up. */
  function SelectBuild(job: Job, id: int): (r: Option<Build>)
    ensures id == 0 ==> r == job.lastSuccessfulBuild
    ensures id != 0 ==> (r.Some? <==> id in job.builds) && (r.Some? ==> r.value == job.builds[id])
  {
    if id == 0 then job.lastSuccessfulBuild
    else if id in job.builds then Some(job.builds[id]) else None
  }

  /** What GetBuildInfo returns once the job lookup has answered: the first
      missing piece (job, build, agent name) is the error, otherwise the build's
      fields with the two derived times. The scheduled Unix time is never set,
      so it keeps Go's zero value. */
  function BuildInfoFor(jobURL: string, id: int, job: Option<Job>): (r: Result<BuildInfo, BuildError>)
    ensures r.Ok? ==> r.value.scheduledTimeUnix == 0
    ensures r.Ok? && 0 <= r.value.executionTimeMs <= r.value.durationMs ==>
      r.value.scheduledTimestamp <= r.value.executionStartTimeUnix <= r.value.completedTimeUnix
  {
    match job
    case None => Err(JobNotFound(jobURL))
    case Some(j) =>
      match SelectBuild(j, id)
      case None => Err(BuildNotFound(id))
      case Some(b) =>
        match FindBuildHostMachineName(b.consoleLog)
        case Err(_) => Err(HostNotFound)
        case Ok(host) =>
          TimeWindowOrderedWhenValid(b.timestampUnix, b.durationMs, b.executionTimeMs);
          Ok(BuildInfo(j.fullName, b.number, b.timestampUnix, 0,
                       ExecutionStartTimeUnix(b.timestampUnix, b.durationMs, b.executionTimeMs),
                       CompletedTimeUnix(b.timestampUnix, b.durationMs),
                       b.durationMs, b.executionTimeMs, host))
  }

  lemma TimeWindowOrderedWhenValid(scheduledUnix: int, durationMs: int, executionTimeMs: int)
    ensures 0 <= executionTimeMs <= durationMs ==>
      scheduledUnix <= ExecutionStartTimeUnix(scheduledUnix, durationMs, executionTimeMs)
                    <= CompletedTimeUnix(scheduledUnix, durationMs)
  {
    if 0 <= executionTimeMs <= durationMs {
      TimeWindowOrdered(scheduledUnix, durationMs, executionTimeMs);
    }
  }

  /** Each error of GetBuildInfo is reported exactly when its cause holds:
      no job, then no such build, then no agent line in the log. */
  lemma BuildInfoErrors(jobURL: string, id: int, job: Option<Job>)
    ensures BuildInfoFor(jobURL, id, job) == Err(JobNotFound(jobURL)) <==> job.None?
    ensures BuildInfoFor(jobURL, id, job) == Err(BuildNotFound(id)) <==>
      job.Some? && SelectBuild(job.value, id).None?
    ensures BuildInfoFor(jobURL, id, job) == Err(HostNotFound) <==>
      job.Some? && SelectBuild(job.value, id).Some? &&
      forall k: nat :: !MatchesAt(SelectBuild(job.value, id).value.consoleLog, HostMarker, k)
  {
  }

  /** On success every field comes from the job and the selected build, the
      agent name from the build's log. */
  lemma BuildInfoFields(jobURL: string, id: int, job: Option<Job>)
    requires BuildInfoFor(jobURL, id, job).Ok?
    ensures job.Some? && SelectBuild(job.value, id).Some?
    ensures var r, b := BuildInfoFor(jobURL, id, job).value, SelectBuild(job.value, id).value;
      r.jobName == job.value.fullName && r.buildID == b.number &&
      r.scheduledTimestamp == b.timestampUnix && r.durationMs == b.durationMs &&
      r.executionTimeMs == b.executionTimeMs &&
      r.completedTimeUnix == CompletedTimeUnix(b.timestampUnix, b.durationMs) &&
      r.executionStartTimeUnix == ExecutionStartTimeUnix(b.timestampUnix, b.durationMs, b.executionTimeMs) &&
      FindBuildHostMachineName(b.consoleLog) == Ok(r.agentHostMachine)
  {
  }

  /** GetBuildInfo. `getJob` stands for the Jenkins client's job lookup by
      name and parent folders. */
  method GetBuildInfo(jobURL: string, id: int, getJob: (string, seq<string>) -> Option<Job>)
    returns (r: Result<BuildInfo, BuildError>)
    ensures var jp := ParsedJobPath(jobURL); r == BuildInfoFor(jobURL, id, getJob(jp.name, jp.parents))
  {
    var jobName, path, _ := ParseJobURL(jobURL);
    var job := getJob(jobName, path);
    if job.None? {
      return Err(JobNotFound(jobURL));
    }
    var build := SelectBuild(job.value, id);
    if build.None? {
      return Err(BuildNotFound(id));
    }
    var b := build.value;
    var durationMs := b.durationMs;
    var executionTimeMs := b.executionTimeMs;
    var completed := CompletedTimeUnix(b.timestampUnix, durationMs);
    var executionStart := ExecutionStartTimeUnix(b.timestampUnix, durationMs, executionTimeMs);
    var host := FindBuildHostMachineName(b.consoleLog);
    if host.Err? {
      return Err(HostNotFound);
    }
    return Ok(BuildInfo(job.value.fullName, b.number, b.timestampUnix, 0, executionStart, completed,
                        durationMs, executionTimeMs, host.value));
  }
}
