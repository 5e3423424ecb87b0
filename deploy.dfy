/**
 * The `deploy` command of src/cli/deploy.ts: collecting `--tag` options,
 * validating them against `--untagged`, choosing the files to upload, laying
 * out the form fields, reading the upload answer and polling the compilation
 * status until it is final.
 *
 * The filesystem is a snapshot, the file walker's listing and the server's
 * answers are sequences given in advance; the tarball and its compression
 * are not modelled.
 */
module Deploy {
  import opened Wrappers
  import opened Text
  import opened Json
  import opened CliUtils

  // ---- collectTags ----

  /** The `--tag` option's value: the tags and whether the default was dropped. */
  datatype CollectedTags = CollectedTags(tags: seq<string>, isNotDefault: bool)

  const DefaultTags := CollectedTags(["latest"], false)

  /** `collectTags`: the first explicit tag replaces the default, later ones are appended. */
  function CollectTag(value: string, previous: CollectedTags): (r: CollectedTags)
    ensures r.isNotDefault
    ensures previous.isNotDefault ==> r.tags == previous.tags + [value]
    ensures !previous.isNotDefault ==> r.tags == [value]
  {
    CollectedTags(if previous.isNotDefault then previous.tags + [value] else [value], true)
  }

  /** The option value after the command line gave `values` in order. */
  function CollectAll(values: seq<string>): CollectedTags {
    if values == [] then DefaultTags else CollectTag(values[|values| - 1], CollectAll(values[..|values| - 1]))
  }

  /** With one or more explicit tags the list is exactly those tags, in order; `latest` is gone. */
  lemma {:induction false} ExplicitTagsReplaceDefault(values: seq<string>)
    requires values != []
    ensures CollectAll(values) == CollectedTags(values, true)
  {
    if |values| > 1 {
      ExplicitTagsReplaceDefault(values[..|values| - 1]);
      assert values[..|values| - 1] + [values[|values| - 1]] == values;
    }
  }

  // ---- tag validation ----

  datatype TagError = TagWithUntagged | InvalidTag(tag: string)

  /**
   * The first objection to the tag options: `--untagged` with anything but
   * the untouched default, or without it the first tag outside `[-a-zA-Z0-9_.]+`.
   */
  function TagOptionsError(collected: CollectedTags, untagged: bool): (r: Option<TagError>)
    ensures untagged ==>
      (r.None? <==> collected.tags == ["latest"] && !collected.isNotDefault) &&
      (r.Some? ==> r.value == TagWithUntagged)
    ensures !untagged ==> (r.None? <==> forall i :: 0 <= i < |collected.tags| ==> IsTag(collected.tags[i]))
    ensures !untagged && r.Some? ==>
      exists i :: 0 <= i < |collected.tags| && r.value == InvalidTag(collected.tags[i]) &&
        !IsTag(collected.tags[i]) && forall j :: 0 <= j < i ==> IsTag(collected.tags[j])
  {
    if untagged then
      if |collected.tags| != 1 || collected.tags[0] != "latest" || collected.isNotDefault then Some(TagWithUntagged)
      else None
    else FirstInvalidTag(collected.tags)
  }

  function FirstInvalidTag(tags: seq<string>): (r: Option<TagError>)
    ensures r.None? <==> forall i :: 0 <= i < |tags| ==> IsTag(tags[i])
    ensures r.Some? ==>
      exists i :: 0 <= i < |tags| && r.value == InvalidTag(tags[i]) &&
        !IsTag(tags[i]) && forall j :: 0 <= j < i ==> IsTag(tags[j])
  {
    if tags == [] then None
    else if !IsTag(tags[0]) then Some(InvalidTag(tags[0]))
    else
      var r := FirstInvalidTag(tags[1..]);
      if r.Some? then
        var i :| 0 <= i < |tags[1..]| && r.value == InvalidTag(tags[1..][i]) &&
          !IsTag(tags[1..][i]) && forall j :: 0 <= j < i ==> IsTag(tags[1..][j]);
        assert tags[i + 1] == tags[1..][i];
        r
      else r
  }

  /** `--untagged` together with any `--tag`, even `-t latest`, is rejected. */
  lemma UntaggedRejectsAnyTag(values: seq<string>)
    requires values != []
    ensures TagOptionsError(CollectAll(values), true) == Some(TagWithUntagged)
  {
    ExplicitTagsReplaceDefault(values);
  }

  /** The validation step of the action: the `if` and the `for` loop with its early exit. */
  method CheckTagOptions(collected: CollectedTags, untagged: bool) returns (r: Option<TagError>)
    ensures r == TagOptionsError(collected, untagged)
  {
    if untagged {
      if |collected.tags| != 1 || collected.tags[0] != "latest" || collected.isNotDefault {
        return Some(TagWithUntagged);
      }
      return None;
    }
    var i := 0;
    while i < |collected.tags|
      invariant 0 <= i <= |collected.tags|
      invariant forall j :: 0 <= j < i ==> IsTag(collected.tags[j])
    {
      if !IsTag(collected.tags[i]) {
        FirstInvalidIs(collected.tags, i);
        return Some(InvalidTag(collected.tags[i]));
      }
      i := i + 1;
    }
    return None;
  }

  lemma {:induction false} FirstInvalidIs(tags: seq<string>, i: nat)
    requires i < |tags| && !IsTag(tags[i]) && forall j :: 0 <= j < i ==> IsTag(tags[j])
    ensures FirstInvalidTag(tags) == Some(InvalidTag(tags[i]))
  {
    if i > 0 {
      FirstInvalidIs(tags[1..], i - 1);
    }
  }

  // ---- the upload list ----

  /** The regex `(^|\/)\.git(\/|$)` matches at position `i`. */
  predicate GitAt(f: string, i: nat) {
    i + 4 <= |f| && f[i..i + 4] == ".git" &&
    (i == 0 || f[i - 1] == '/') && (i + 4 == |f| || f[i + 4] == '/')
  }

  predicate HasGitComponent(f: string) {
    exists i :: 0 <= i <= |f| && GitAt(f, i)
  }

  /** The regex test is the same as `.git` being one of the `/`-separated components. */
  lemma {:induction false} GitComponentIffSplit(f: string)
    ensures HasGitComponent(f) <==> ".git" in Split(f, '/')
    decreases |f|
  {
    if '/' !in f {
      SplitWithoutSeparator(f, '/');
      if HasGitComponent(f) {
        var i :| 0 <= i <= |f| && GitAt(f, i);
        assert f == f[0..4];
      }
      if f == ".git" { assert GitAt(f, 0); }
    } else {
      var k := IndexOf(f, '/');
      var a, rest := f[..k], f[k + 1..];
      assert f == a + ['/'] + rest;
      SplitAfterSeparator(a, rest, '/');
      GitComponentIffSplit(rest);
      GitAtSplit(f, k);
    }
  }

  /** A match lies wholly in the first component or wholly after the first `/`. */
  lemma GitAtSplit(f: string, k: nat)
    requires k < |f| && f[k] == '/' && '/' !in f[..k]
    ensures HasGitComponent(f) <==> f[..k] == ".git" || HasGitComponent(f[k + 1..])
  {
    var a, rest := f[..k], f[k + 1..];
    if HasGitComponent(f) {
      var i :| 0 <= i <= |f| && GitAt(f, i);
      if i <= k {
        assert i == 0;
        assert a == f[0..4];
      } else {
        assert GitAt(rest, i - k - 1) by {
          assert rest[i - k - 1..i - k + 3] == f[i..i + 4];
          if i - k - 1 > 0 { assert rest[i - k - 2] == f[i - 1]; }
          if i - k + 3 < |rest| { assert rest[i - k + 3] == f[i + 4]; }
        }
      }
    }
    if a == ".git" {
      assert GitAt(f, 0);
    }
    if HasGitComponent(rest) {
      var j :| 0 <= j <= |rest| && GitAt(rest, j);
      assert GitAt(f, j + k + 1) by {
        assert f[j + k + 1..j + k + 5] == rest[j..j + 4];
        assert f[j + k] == if j == 0 then f[k] else rest[j - 1];
        if j + 4 < |rest| { assert f[j + k + 5] == rest[j + 4]; }
      }
    }
  }

  /** `.gitignore` is kept, anything inside a `.git` directory is not. */
  lemma GitFilterExamples()
    ensures !HasGitComponent(".gitignore")
    ensures HasGitComponent(".git/config") && HasGitComponent("sub/.git")
  {
    GitIgnoreKept();
    GitDirectoriesDropped();
  }

  lemma GitIgnoreKept()
    ensures !HasGitComponent(".gitignore")
  {
    GitComponentIffSplit(".gitignore");
    SplitWithoutSeparator(".gitignore", '/');
  }

  lemma GitDirectoriesDropped()
    ensures HasGitComponent(".git/config") && HasGitComponent("sub/.git")
  {
    assert GitAt(".git/config", 0);
    assert GitAt("sub/.git", 4);
  }

  function WithoutGit(files: seq<string>): (r: seq<string>)
    ensures forall i :: 0 <= i < |r| ==> r[i] in files && !HasGitComponent(r[i])
    ensures forall f :: f in files && !HasGitComponent(f) ==> f in r
  {
    if files == [] then []
    else if HasGitComponent(files[0]) then WithoutGit(files[1..])
    else [files[0]] + WithoutGit(files[1..])
  }

  /** The filter keeps files in order, each as often as it was walked: it distributes over concatenation ... */
  lemma {:induction false} WithoutGitConcat(a: seq<string>, b: seq<string>)
    ensures WithoutGit(a + b) == WithoutGit(a) + WithoutGit(b)
  {
    if a == [] {
      assert a + b == b;
    } else {
      assert (a + b)[0] == a[0] && (a + b)[1..] == a[1..] + b;
      WithoutGitConcat(a[1..], b);
    }
  }

  /** ... and keeps a single file iff it has no `.git` component. */
  lemma WithoutGitSingle(f: string)
    ensures WithoutGit([f]) == if HasGitComponent(f) then [] else [f]
  {
    assert [f][1..] == [];
  }

  /**
   * The upload list: the walked files without `.git` paths, then the project
   * file's name appended unless already listed.
   */
  function UploadList(walked: seq<string>, projectFileName: string): (r: seq<string>)
    ensures projectFileName in r
    ensures |WithoutGit(walked)| <= |r| <= |WithoutGit(walked)| + 1
    ensures r[..|WithoutGit(walked)|] == WithoutGit(walked)
    ensures forall f :: f in r ==> f == projectFileName || (f in walked && !HasGitComponent(f))
    ensures projectFileName in WithoutGit(walked) ==> r == WithoutGit(walked)
  {
    var kept := WithoutGit(walked);
    if projectFileName in kept then kept else kept + [projectFileName]
  }

  // ---- form fields ----

  /** The `tags` form fields: one empty value when untagged, otherwise one per tag in order. */
  function TagFields(collected: CollectedTags, untagged: bool): (r: seq<(string, string)>)
    ensures untagged ==> r == [("tags", "")]
    ensures !untagged ==> |r| == |collected.tags| &&
                          (forall i :: 0 <= i < |r| ==> r[i] == ("tags", collected.tags[i]))
  {
    if untagged then [("tags", "")]
    else seq(|collected.tags|, i requires 0 <= i < |collected.tags| => ("tags", collected.tags[i]))
  }

  // ---- upload answer ----

  /** What `circuitCreate` gives: a body (whose `circuit_id` may be missing), an API error status, or another failure. */
  datatype UploadAnswer = Created(circuitId: Option<string>) | ApiFailure(status: int) | OtherFailure

  datatype DeployExit =
    | TagProblem(error: TagError)
    | DirectoryMissing
    | NoProjectFile
    | ProjectFileUnreadable
    | NoNameField
    | NotLoggedIn
    | UploadFailed
    | NoCircuitId
    | CompilationFailed(message: string)
    | PollingFailed

  /**
   * The circuit ID after the upload: a 401 only logs, so it falls through to
   * the missing-ID abort with every answer that carries no (or an empty) ID.
   */
  function CircuitIdFrom(answer: UploadAnswer): (r: Result<string, DeployExit>)
    ensures r.Ok? <==> answer.Created? && StrTruthy(answer.circuitId)
    ensures r.Ok? ==> r.value == answer.circuitId.value && r.value != []
    ensures answer == ApiFailure(401) ==> r == Err(NoCircuitId)
    ensures r == Err(UploadFailed) <==> answer == OtherFailure || (answer.ApiFailure? && answer.status != 401)
  {
    match answer
    case Created(id) => if StrTruthy(id) then Ok(id.value) else Err(NoCircuitId)
    case ApiFailure(status) => if status == 401 then Err(NoCircuitId) else Err(UploadFailed)
    case OtherFailure => Err(UploadFailed)
  }

  // ---- status polling ----

  /** One `circuitStatus` answer, or a thrown error. */
  datatype StatusAnswer = Status(status: string) | StatusRequestFailed

  /** The `circuitDetail` answer fetched for a final status, or a thrown error. */
  datatype DetailAnswer = Detail(error: Option<string>) | DetailRequestFailed

  datatype PollOutcome = Compiled | Failed(message: string) | PollError | StillPolling

  predicate IsFinal(s: string) { s == "Ready" || s == "Failed" }

  predicate NotFinal(a: StatusAnswer) { a.Status? && !IsFinal(a.status) }

  /** The outcome once status `s` arrived and, if it is final, its detail was fetched. */
  function OnFinal(s: string, detail: DetailAnswer): PollOutcome
    requires IsFinal(s)
  {
    if detail.DetailRequestFailed? then PollError
    else if s == "Ready" then Compiled
    else Failed(detail.error.GetOr("Unknown error."))
  }

  /**
   * The polling loop over the status answers in order: the first final status
   * decides (its detail fetch may still throw), a thrown status request stops
   * everything, any other status keeps polling; `StillPolling` when the
   * answers run out first.
   */
  function PollSpec(answers: seq<StatusAnswer>, detail: DetailAnswer): (r: PollOutcome)
    ensures r == StillPolling <==> forall i :: 0 <= i < |answers| ==> NotFinal(answers[i])
    ensures r == Compiled ==> exists i :: 0 <= i < |answers| && answers[i] == Status("Ready") &&
                                           (forall j :: 0 <= j < i ==> NotFinal(answers[j]))
    ensures r.Failed? ==> exists i :: 0 <= i < |answers| && answers[i] == Status("Failed") &&
                                           (forall j :: 0 <= j < i ==> NotFinal(answers[j]))
  {
    if answers == [] then StillPolling
    else if answers[0].StatusRequestFailed? then PollError
    else if IsFinal(answers[0].status) then OnFinal(answers[0].status, detail)
    else
      var r := PollSpec(answers[1..], detail);
      assert forall i :: 0 <= i < |answers[1..]| ==> answers[1..][i] == answers[i + 1];
      r
  }

  /**
   * The `while (true)` loop: status requests made and detail requests made
   * are returned with the outcome. The detail is fetched only for a final
   * status, so at most once.
   */
  method PollStatus(answers: seq<StatusAnswer>, detail: DetailAnswer)
    returns (outcome: PollOutcome, statusRequests: nat, detailRequests: nat)
    ensures outcome == PollSpec(answers, detail)
    ensures statusRequests <= |answers|
    ensures forall j :: 0 <= j < statusRequests - 1 ==> NotFinal(answers[j])
    ensures detailRequests <= 1
    ensures detailRequests == 1 <==>
      (outcome != StillPolling && statusRequests >= 1 &&
       answers[statusRequests - 1].Status? && IsFinal(answers[statusRequests - 1].status))
  {
    var i := 0;
    detailRequests := 0;
    while i < |answers|
      invariant 0 <= i <= |answers|
      invariant forall j :: 0 <= j < i ==> NotFinal(answers[j])
      invariant PollSpec(answers, detail) == PollSpec(answers[i..], detail)
    {
      PollSpecStep(answers, i, detail);
      var answer := answers[i];
      if answer.StatusRequestFailed? {
        return PollError, i + 1, 0;
      }
      if IsFinal(answer.status) {
        return OnFinal(answer.status, detail), i + 1, 1;
      }
      i := i + 1;
    }
    assert answers[i..] == [];
    return StillPolling, i, 0;
  }

  lemma PollSpecStep(answers: seq<StatusAnswer>, i: nat, detail: DetailAnswer)
    requires i < |answers|
    ensures PollSpec(answers[i..], detail) ==
      if answers[i].StatusRequestFailed? then PollError
      else if IsFinal(answers[i].status) then OnFinal(answers[i].status, detail)
      else PollSpec(answers[i + 1..], detail)
  {
    assert answers[i..][0] == answers[i];
    assert answers[i..][1..] == answers[i + 1..];
  }

  // ---- the action ----

  /** Everything the action reads from outside: option values, files, credentials and server answers. */
  datatype DeployInput = DeployInput(
    tagValues: seq<string>,
    untagged: bool,
    directory: Path,
    fs: Snapshot,
    readProject: Path -> Option<Json>,
    toText: Json -> string,
    apiKey: Option<string>,
    baseUrl: Option<string>,
    walked: seq<string>,
    upload: UploadAnswer,
    statuses: seq<StatusAnswer>,
    detail: DetailAnswer)

  /**
   * How the action ends: an exit with status 1, a thrown error, success, or
   * still polling when the given status answers ran out (the source polls on).
   */
  datatype DeployResult = Exit1(reason: DeployExit) | Crashed | Deployed | StillCompiling

  /**
   * What the action sent: the files packed into the tarball, the form fields,
   * whether it uploaded, and how often it polled.
   */
  datatype DeployTrace = DeployTrace(files: seq<string>, form: seq<(string, string)>, uploaded: bool, statusRequests: nat)

  /** The checks before the upload: where they stop, or the project file and circuit name they found. */
  datatype Preflight = Stop(result: DeployResult) | Ready(projectPath: Path, circuitName: Json)

  /**
   * The action's checks in order: tag options, the directory, `sindri.json`
   * upwards from it, its parse, its `name` field, and the credentials.
   */
  function DeployPreflight(input: DeployInput): (r: Preflight)
    ensures r.Ready? ==> r.projectPath != []
    ensures r.Ready? ==>
      TagOptionsError(CollectAll(input.tagValues), input.untagged).None? &&
      StrTruthy(input.apiKey) && StrTruthy(input.baseUrl)
    ensures r.Stop? ==> r.result.Exit1? || r.result.Crashed?
    ensures TagOptionsError(CollectAll(input.tagValues), input.untagged).Some? ==>
      r == Stop(Exit1(TagProblem(TagOptionsError(CollectAll(input.tagValues), input.untagged).value)))
  {
    var tagError := TagOptionsError(CollectAll(input.tagValues), input.untagged);
    if tagError.Some? then Stop(Exit1(TagProblem(tagError.value)))
    else if input.directory !in input.fs then Stop(Exit1(DirectoryMissing))
    else
      var search := FindFileUpwards(IsSindriJsonName, input.directory, input.fs);
      if search.Err? || search.value.None? then Stop(Exit1(NoProjectFile))
      else
        var parsed := input.readProject(search.value.value);
        if parsed.None? then Stop(Exit1(ProjectFileUnreadable))
        else if !(parsed.value.JObj? || parsed.value.JArr?) then Stop(Crashed)
        else if parsed.value.JArr? || Field(parsed.value.entries, "name").None? then Stop(Exit1(NoNameField))
        else if !StrTruthy(input.apiKey) || !StrTruthy(input.baseUrl) then Stop(Exit1(NotLoggedIn))
        else Ready(search.value.value, Field(parsed.value.entries, "name").value)
  }

  /**
   * The upload happens exactly when the tag options are valid, the directory
   * exists, `sindri.json` is found upwards from it and parses to an object
   * with a `name` field, and credentials are set.
   */
  lemma PreflightReadyIff(input: DeployInput)
    ensures DeployPreflight(input).Ready? <==>
      TagOptionsError(CollectAll(input.tagValues), input.untagged).None? &&
      input.directory in input.fs &&
      (var search := FindFileUpwards(IsSindriJsonName, input.directory, input.fs);
       search.Ok? && search.value.Some? &&
       var parsed := input.readProject(search.value.value);
       parsed.Some? && parsed.value.JObj? && Field(parsed.value.entries, "name").Some?) &&
      StrTruthy(input.apiKey) && StrTruthy(input.baseUrl)
  {
  }

  /**
   * The `deploy` action. `metaJson` is `JSON.stringify` of the collected
   * metadata. A project file whose parsed value is not an object or array
   * makes the `"name" in` test throw.
   */
  method DeployAction(input: DeployInput, metaJson: string) returns (result: DeployResult, trace: DeployTrace)
    requires NormalPath(input.directory)
    ensures trace.uploaded <==> DeployPreflight(input).Ready?
    ensures !trace.uploaded ==> result == DeployPreflight(input).result && trace.statusRequests == 0
    ensures trace.uploaded ==>
      var pre := DeployPreflight(input);
      trace.files == UploadList(input.walked, pre.projectPath[|pre.projectPath| - 1]) &&
      trace.form ==
        [("files", input.toText(pre.circuitName) + ".tar.gz"), ("meta", metaJson)] +
        TagFields(CollectAll(input.tagValues), input.untagged) &&
      (CircuitIdFrom(input.upload).Err? ==>
        result == Exit1(CircuitIdFrom(input.upload).error) && trace.statusRequests == 0) &&
      (CircuitIdFrom(input.upload).Ok? ==>
        var outcome := PollSpec(input.statuses, input.detail);
        (outcome == Compiled <==> result == Deployed) &&
        (outcome.Failed? ==> result == Exit1(CompilationFailed(outcome.message))) &&
        (outcome == PollError ==> result == Exit1(PollingFailed)) &&
        (outcome == StillPolling ==> result == StillCompiling))
  {
    trace := DeployTrace([], [], false, 0);
    var tags := CollectAll(input.tagValues);
    var tagError := CheckTagOptions(tags, input.untagged);
    if tagError.Some? {
      return Exit1(TagProblem(tagError.value)), trace;
    }
    var pre := DeployPreflight(input);
    if pre.Stop? {
      return pre.result, trace;
    }
    var projectPath := pre.projectPath;
    var circuitName := pre.circuitName;
    result, trace := UploadAndPoll(input, metaJson, projectPath, circuitName);
  }

  /**
   * The second half of `deploy`, once every check has passed: upload the
   * tarball with its form fields, then poll the circuit's status.
   */
  method UploadAndPoll(input: DeployInput, metaJson: string, projectPath: Path, circuitName: Json)
    returns (result: DeployResult, trace: DeployTrace)
    requires projectPath != []
    ensures trace.uploaded && trace.files == UploadList(input.walked, projectPath[|projectPath| - 1])
    ensures trace.form ==
      [("files", input.toText(circuitName) + ".tar.gz"), ("meta", metaJson)] +
      TagFields(CollectAll(input.tagValues), input.untagged)
    ensures CircuitIdFrom(input.upload).Err? ==>
      result == Exit1(CircuitIdFrom(input.upload).error) && trace.statusRequests == 0
    ensures CircuitIdFrom(input.upload).Ok? ==>
      var outcome := PollSpec(input.statuses, input.detail);
      (outcome == Compiled <==> result == Deployed) &&
      (outcome.Failed? ==> result == Exit1(CompilationFailed(outcome.message))) &&
      (outcome == PollError ==> result == Exit1(PollingFailed)) &&
      (outcome == StillPolling ==> result == StillCompiling)
  {
    var files := UploadList(input.walked, projectPath[|projectPath| - 1]);
    var form := [("files", input.toText(circuitName) + ".tar.gz"), ("meta", metaJson)];
    form := form + TagFields(CollectAll(input.tagValues), input.untagged);
    trace := DeployTrace(files, form, true, 0);
    var id := CircuitIdFrom(input.upload);
    if id.Err? {
      return Exit1(id.error), trace;
    }
    var outcome, statusRequests, detailRequests := PollStatus(input.statuses, input.detail);
    trace := trace.(statusRequests := statusRequests);
    match outcome
    case Compiled => result := Deployed;
    case Failed(message) => result := Exit1(CompilationFailed(message));
    case PollError => result := Exit1(PollingFailed);
    case StillPolling => result := StillCompiling;
  }
}
