/**
 * The `project delete` command of src/cli/project.ts: which project names are
 * deleted (a single named project, or every project of the team page by page),
 * the confirmation guard, and the count of deleted projects that is reported.
 * Every failed request ends the process with status 1.
 */
module Project {
  import opened Wrappers
  import opened Json
  import opened CliUtils

  datatype ProjectExit =
    | NotLoggedIn | DirectoryMissing | NoProjectFile | ProjectFileUnreadable | NoNameField
    | TeamLookupFailed | ListFailed | DeleteFailed(name: string)

  /**
   * `findProjectName`: the string `name` of the nearest `sindri.json`. `None`
   * from `readProject` is a read or JSON failure. `Crashed` is the TypeError of
   * `"name" in` on a primitive.
   */
  datatype NameLookup = Found(name: string) | Failed(reason: ProjectExit) | Crashed

  function FindProjectName(directory: Path, fs: Snapshot, readProject: Path -> Option<Json>): (r: NameLookup)
    ensures directory !in fs ==> r == Failed(DirectoryMissing)
    ensures r.Found? ==>
      exists p :: FindFileUpwards(IsSindriJsonName, directory, fs) == Ok(Some(p)) &&
        readProject(p).Some? && readProject(p).value.JObj? &&
        Field(readProject(p).value.entries, "name") == Some(JStr(r.name))
    ensures r.Found? <==>
      (directory in fs &&
       FindFileUpwards(IsSindriJsonName, directory, fs).Ok? &&
       FindFileUpwards(IsSindriJsonName, directory, fs).value.Some? &&
       var parsed := readProject(FindFileUpwards(IsSindriJsonName, directory, fs).value.value);
       parsed.Some? && parsed.value.JObj? &&
       Field(parsed.value.entries, "name").Some? && Field(parsed.value.entries, "name").value.JStr?)
  {
    if directory !in fs then Failed(DirectoryMissing)
    else
      var search := FindFileUpwards(IsSindriJsonName, directory, fs);
      if search.Err? || search.value.None? then Failed(NoProjectFile)
      else
        var parsed := readProject(search.value.value);
        if parsed.None? then Failed(ProjectFileUnreadable)
        else if !(parsed.value.JObj? || parsed.value.JArr?) then Crashed
        else if parsed.value.JArr? then Failed(NoNameField)
        else
          var name := Field(parsed.value.entries, "name");
          if name.Some? && name.value.JStr? then Found(name.value.s) else Failed(NoNameField)
  }

  /** The first name whose deletion fails. */
  function FirstFailure(names: seq<string>, fails: string -> bool): (r: Option<nat>)
    ensures r.Some? ==> (r.value < |names| && fails(names[r.value]) &&
      forall i :: 0 <= i < r.value ==> !fails(names[i]))
    ensures r.None? <==> forall i :: 0 <= i < |names| ==> !fails(names[i])
  {
    if names == [] then None
    else if fails(names[0]) then Some(0)
    else
      var r := FirstFailure(names[1..], fails);
      assert forall i :: 1 <= i < |names| ==> names[i] == names[1..][i - 1];
      if r.None? then None else Some(r.value + 1)
  }

  /** How the `--all` loop ends: at an empty page, on a failure, or past the last answer modelled. */
  datatype LoopEnd = EmptyPage | ListingFailed | DeletionFailed | OutOfAnswers

  datatype LoopRun = LoopRun(end: LoopEnd, calls: seq<string>)

  /**
   * The `--all` loop over the answers to successive listing requests
   * (`None` is a failed request): each page's names are deleted in order until
   * an empty page, and the first failure ends the process. `calls` are the
   * names passed to `deleteProject`, the failing one included.
   */
  function DeleteAllSpec(pages: seq<Option<seq<string>>>, fails: string -> bool): LoopRun
  {
    if pages == [] then LoopRun(OutOfAnswers, [])
    else if pages[0].None? then LoopRun(ListingFailed, [])
    else if pages[0].value == [] then LoopRun(EmptyPage, [])
    else
      var page := pages[0].value;
      var f := FirstFailure(page, fails);
      if f.Some? then LoopRun(DeletionFailed, page[..f.value + 1])
      else
        var rest := DeleteAllSpec(pages[1..], fails);
        LoopRun(rest.end, page + rest.calls)
  }

  /** The run ends with a failure exactly when the last call failed, and every earlier call succeeded. */
  lemma {:induction false} FailureIsLastCall(pages: seq<Option<seq<string>>>, fails: string -> bool)
    ensures var r := DeleteAllSpec(pages, fails);
      (r.end == DeletionFailed <==> (r.calls != [] && fails(r.calls[|r.calls| - 1]))) &&
      forall i :: 0 <= i < |r.calls| - 1 ==> !fails(r.calls[i])
  {
    if pages != [] && pages[0].Some? && pages[0].value != [] {
      var page := pages[0].value;
      if FirstFailure(page, fails).None? {
        FailureIsLastCall(pages[1..], fails);
        var rest := DeleteAllSpec(pages[1..], fails);
        var calls := page + rest.calls;
        assert forall i :: |page| <= i < |calls| ==> calls[i] == rest.calls[i - |page|];
        if rest.calls != [] {
          assert calls[|calls| - 1] == rest.calls[|rest.calls| - 1];
        }
      }
    }
  }

  /** Pages that list names and delete them all without failing. */
  predicate CleanPages(pages: seq<Option<seq<string>>>, fails: string -> bool) {
    forall i :: 0 <= i < |pages| ==>
      pages[i].Some? && pages[i].value != [] && forall j :: 0 <= j < |pages[i].value| ==> !fails(pages[i].value[j])
  }

  function Concat(pages: seq<Option<seq<string>>>): seq<string>
    requires forall i :: 0 <= i < |pages| ==> pages[i].Some?
  {
    if pages == [] then [] else pages[0].value + Concat(pages[1..])
  }

  /**
   * The loop stops at the first empty page, having deleted exactly the names
   * of the pages before it, in order.
   */
  lemma {:induction false} StopsAtFirstEmptyPage(pages: seq<Option<seq<string>>>, fails: string -> bool, k: nat)
    requires k < |pages| && pages[k] == Some([]) && CleanPages(pages[..k], fails)
    ensures DeleteAllSpec(pages, fails) == LoopRun(EmptyPage, Concat(pages[..k]))
  {
    if k == 0 {
    } else {
      assert pages[1..][..k - 1] == pages[..k][1..];
      assert CleanPages(pages[1..][..k - 1], fails);
      StopsAtFirstEmptyPage(pages[1..], fails, k - 1);
      assert pages[0] == pages[..k][0];
      assert FirstFailure(pages[0].value, fails).None?;
    }
  }

  /** One page of the loop: delete in order, stopping after the first failure. */
  method DeletePage(names: seq<string>, fails: string -> bool) returns (called: seq<string>, failed: bool)
    ensures failed <==> FirstFailure(names, fails).Some?
    ensures failed ==> called == names[..FirstFailure(names, fails).value + 1]
    ensures !failed ==> called == names
  {
    called := [];
    for j := 0 to |names|
      invariant called == names[..j]
      invariant forall i :: 0 <= i < j ==> !fails(names[i])
    {
      called := called + [names[j]];
      if fails(names[j]) {
        assert FirstFailure(names, fails) == Some(j);
        return called, true;
      }
    }
    failed := false;
  }

  lemma PageStep(pages: seq<Option<seq<string>>>, k: nat, fails: string -> bool)
    requires k < |pages| && pages[k].Some? && pages[k].value != []
    ensures var f := FirstFailure(pages[k].value, fails);
      var rest := DeleteAllSpec(pages[k + 1..], fails);
      DeleteAllSpec(pages[k..], fails) ==
        if f.Some? then LoopRun(DeletionFailed, pages[k].value[..f.value + 1])
        else LoopRun(rest.end, pages[k].value + rest.calls)
  {
    assert pages[k..][0] == pages[k] && pages[k..][1..] == pages[k + 1..];
  }

  /** The loop's invariant: the calls made so far followed by those the remaining pages make. */
  predicate LoopInvariant(pages: seq<Option<seq<string>>>, fails: string -> bool, k: nat, calls: seq<string>)
    requires k <= |pages|
  {
    var rest := DeleteAllSpec(pages[k..], fails);
    DeleteAllSpec(pages, fails) == LoopRun(rest.end, calls + rest.calls)
  }

  /**
   * One page of the loop, deleted as `DeletePage` reports: a failure ends the
   * loop with the calls made so far, otherwise the loop moves on to the next page.
   */
  lemma PageOutcome(pages: seq<Option<seq<string>>>, fails: string -> bool, k: nat, calls: seq<string>,
                    called: seq<string>, failed: bool)
    requires k < |pages| && pages[k].Some? && pages[k].value != []
    requires LoopInvariant(pages, fails, k, calls)
    requires failed <==> FirstFailure(pages[k].value, fails).Some?
    requires failed ==> called == pages[k].value[..FirstFailure(pages[k].value, fails).value + 1]
    requires !failed ==> called == pages[k].value
    ensures failed ==> called != [] && DeleteAllSpec(pages, fails) == LoopRun(DeletionFailed, calls + called)
    ensures !failed ==> LoopInvariant(pages, fails, k + 1, calls + called)
  {
    PageStep(pages, k, fails);
    if !failed {
      var rest := DeleteAllSpec(pages[k + 1..], fails);
      assert calls + (called + rest.calls) == (calls + called) + rest.calls;
    }
  }

  /** A failed listing, an empty page or the end of the answers ends the loop with no further call. */
  lemma StopStep(pages: seq<Option<seq<string>>>, fails: string -> bool, k: nat, calls: seq<string>)
    requires k <= |pages| && LoopInvariant(pages, fails, k, calls)
    requires k < |pages| ==> pages[k].None? || pages[k].value == []
    ensures DeleteAllSpec(pages, fails) ==
      LoopRun(if k == |pages| then OutOfAnswers else if pages[k].None? then ListingFailed else EmptyPage, calls)
  {
    if k < |pages| {
      assert pages[k..][0] == pages[k];
    }
    assert calls + [] == calls;
  }

  /** The `--all` loop as the source runs it; `deletedCount` counts the deletions that succeeded. */
  method DeleteAll(pages: seq<Option<seq<string>>>, fails: string -> bool)
    returns (end: LoopEnd, calls: seq<string>, deletedCount: nat)
    ensures LoopRun(end, calls) == DeleteAllSpec(pages, fails)
    ensures deletedCount == if end == DeletionFailed then |calls| - 1 else |calls|
  {
    calls := [];
    deletedCount := 0;
    var k := 0;
    assert pages[0..] == pages;
    while k < |pages|
      invariant k <= |pages| && deletedCount == |calls|
      invariant LoopInvariant(pages, fails, k, calls)
    {
      var listed := pages[k];
      if listed.None? {
        StopStep(pages, fails, k, calls);
        return ListingFailed, calls, deletedCount;
      }
      var names := listed.value;
      if |names| == 0 {
        StopStep(pages, fails, k, calls);
        return EmptyPage, calls, deletedCount;
      }
      var called, failed := DeletePage(names, fails);
      PageOutcome(pages, fails, k, calls, called, failed);
      if failed {
        deletedCount := deletedCount + |called| - 1;
        calls := calls + called;
        return DeletionFailed, calls, deletedCount;
      }
      deletedCount := deletedCount + |called|;
      calls := calls + called;
      k := k + 1;
    }
    StopStep(pages, fails, k, calls);
    end := OutOfAnswers;
  }

  /** The count the summary reports as written: only the `--all` branch increments it. */
  function ReportedCountAsWritten(all: bool, succeeded: nat): nat {
    if all then succeeded else 0
  }

  /** Deleting one named project reports "Successfully deleted 0 projects". */
  lemma SingleDeletionReportedAsZero()
    ensures ReportedCountAsWritten(false, 1) == 0
  {
  }

  datatype DeleteResult = Exit1(reason: ProjectExit) | Crash | Declined | Deleted(count: nat) | Unfinished

  /** How `--all` ends once the team is known; a completed run reports every deletion. */
  function AllOutcome(run: LoopRun): (r: DeleteResult)
    ensures r.Deleted? <==> run.end == EmptyPage
    ensures r.Deleted? ==> r.count == |run.calls|
  {
    match run.end
    case EmptyPage => Deleted(|run.calls|)
    case ListingFailed => Exit1(ListFailed)
    case DeletionFailed => if run.calls == [] then Unfinished else Exit1(DeleteFailed(run.calls[|run.calls| - 1]))
    case OutOfAnswers => Unfinished
  }

  /** How a single deletion ends. */
  function SingleOutcome(target: string, fails: string -> bool): (r: DeleteResult)
    ensures r == Deleted(1) <==> !fails(target)
    ensures r.Exit1? <==> fails(target)
  {
    if fails(target) then Exit1(DeleteFailed(target)) else Deleted(1)
  }

  /**
   * The `project delete` action. `confirmed` is the prompt's answer, `team`
   * the answer to the team lookup (`None` if it fails), `pages` the listing
   * answers and `fails` which deletions fail. Returns the names passed to
   * `deleteProject`.
   */
  method DeleteAction(all: bool, force: bool, name: Option<string>, directory: Path, fs: Snapshot,
                      readProject: Path -> Option<Json>, apiKey: Option<string>, baseUrl: Option<string>,
                      confirmed: bool, team: Option<string>, pages: seq<Option<seq<string>>>,
                      fails: string -> bool)
    returns (result: DeleteResult, calls: seq<string>)
    ensures !StrTruthy(apiKey) || !StrTruthy(baseUrl) ==> result == Exit1(NotLoggedIn) && calls == []
    ensures !force && !confirmed ==> calls == [] && !result.Deleted?
    ensures StrTruthy(apiKey) && StrTruthy(baseUrl) && !force && !confirmed ==> result == Declined
    ensures !all && StrTruthy(name) && calls != [] ==> calls == [name.value]
    ensures !all && !StrTruthy(name) && calls != [] ==>
      FindProjectName(directory, fs, readProject).Found? && calls == [FindProjectName(directory, fs, readProject).name]
    ensures all && calls != [] ==> team.Some? && calls == DeleteAllSpec(pages, fails).calls
    ensures result.Deleted? ==> (forall i :: 0 <= i < |calls| ==> !fails(calls[i])) && result.count == |calls|
    ensures result.Deleted? && all ==> DeleteAllSpec(pages, fails).end == EmptyPage
    ensures calls != [] && fails(calls[|calls| - 1]) ==> result == Exit1(DeleteFailed(calls[|calls| - 1]))
    ensures result.Deleted? ==> ReportedCountAsWritten(all, result.count) == if all then |calls| else 0
    ensures StrTruthy(apiKey) && StrTruthy(baseUrl) && (force || confirmed) && !all && StrTruthy(name) ==>
      calls == [name.value] && result == SingleOutcome(name.value, fails)
    ensures StrTruthy(apiKey) && StrTruthy(baseUrl) && (force || confirmed) && !all && !StrTruthy(name) ==>
      var lookup := FindProjectName(directory, fs, readProject);
      (lookup.Found? ==> calls == [lookup.name] && result == SingleOutcome(lookup.name, fails)) &&
      (lookup.Failed? ==> calls == [] && result == Exit1(lookup.reason)) &&
      (lookup.Crashed? ==> calls == [] && result == Crash)
    ensures StrTruthy(apiKey) && StrTruthy(baseUrl) && (force || confirmed) && all ==>
      (team.None? ==> calls == [] && result == Exit1(TeamLookupFailed)) &&
      (team.Some? ==> calls == DeleteAllSpec(pages, fails).calls && result == AllOutcome(DeleteAllSpec(pages, fails)))
  {
    calls := [];
    if !StrTruthy(apiKey) || !StrTruthy(baseUrl) {
      return Exit1(NotLoggedIn), calls;
    }
    if !force && !confirmed {
      return Declined, calls;
    }
    if !all {
      var target: string;
      if StrTruthy(name) {
        target := name.value;
      } else {
        var lookup := FindProjectName(directory, fs, readProject);
        if lookup.Crashed? {
          return Crash, calls;
        } else if lookup.Failed? {
          return Exit1(lookup.reason), calls;
        }
        target := lookup.name;
      }
      calls := [target];
      result := SingleOutcome(target, fails);
    } else {
      if team.None? {
        return Exit1(TeamLookupFailed), calls;
      }
      var end, deletedCount;
      end, calls, deletedCount := DeleteAll(pages, fails);
      FailureIsLastCall(pages, fails);
      result := AllOutcome(LoopRun(end, calls));
    }
  }
}
