/**
 * The `proof create` command of src/cli/proof.ts: the checks before any input
 * is read, the order in which the proof input's sources are tried, the
 * circuit identifier sent with the request, and which request errors end the
 * process with status 1.
 */
module Proof {
  import opened Wrappers
  import opened Json
  import opened CliUtils

  /** The files tried, in order, when neither `--input` nor piped stdin supplies the input. */
  const DefaultInputFiles: seq<string> := ["input.json", "example-input.json", "Prover.toml"]

  /** The `--tag` option with its default. */
  function TagOrDefault(tag: Option<string>): (r: string)
    ensures tag.None? ==> r == "latest"
    ensures tag.Some? ==> r == tag.value
  {
    tag.GetOr("latest")
  }

  /** The position of the first listed file that exists. */
  function FirstExistingIndex(files: seq<string>, fileExists: string -> bool): (r: Option<nat>)
    ensures r.Some? ==> (r.value < |files| && fileExists(files[r.value]) &&
      forall j :: 0 <= j < r.value ==> !fileExists(files[j]))
    ensures r.None? <==> forall i :: 0 <= i < |files| ==> !fileExists(files[i])
  {
    if files == [] then None
    else if fileExists(files[0]) then Some(0)
    else
      var r := FirstExistingIndex(files[1..], fileExists);
      assert forall j :: 1 <= j < |files| ==> files[j] == files[1..][j - 1];
      if r.None? then None else Some(r.value + 1)
  }

  /** The first listed file that exists. */
  function FirstExisting(files: seq<string>, fileExists: string -> bool): (r: Option<string>)
    ensures r.Some? ==> r.value in files && fileExists(r.value)
    ensures r.None? <==> forall i :: 0 <= i < |files| ==> !fileExists(files[i])
  {
    var i := FirstExistingIndex(files, fileExists);
    if i.None? then None else Some(files[i.value])
  }

  /** Where the proof input came from. */
  datatype InputSource = InputOption | Stdin | DefaultFile(name: string)

  /**
   * The precedence: an existing `--input` file, else stdin when it is not a
   * terminal, else the first existing default file. `None` when none applies.
   */
  function InputSourceSpec(input: Option<string>, stdinIsTty: bool, fileExists: string -> bool): (r: Option<InputSource>)
    ensures StrTruthy(input) && fileExists(input.value) ==> r == Some(InputOption)
    ensures !(StrTruthy(input) && fileExists(input.value)) && !stdinIsTty ==> r == Some(Stdin)
    ensures r.Some? && r.value.DefaultFile? ==>
      stdinIsTty && FirstExisting(DefaultInputFiles, fileExists) == Some(r.value.name)
    ensures (!(StrTruthy(input) && fileExists(input.value)) && stdinIsTty &&
      FirstExisting(DefaultInputFiles, fileExists).Some?) ==>
      r == Some(DefaultFile(FirstExisting(DefaultInputFiles, fileExists).value))
    ensures r.None? <==>
      !(StrTruthy(input) && fileExists(input.value)) && stdinIsTty &&
      forall i :: 0 <= i < |DefaultInputFiles| ==> !fileExists(DefaultInputFiles[i])
  {
    if StrTruthy(input) && fileExists(input.value) then Some(InputOption)
    else if !stdinIsTty then Some(Stdin)
    else
      var f := FirstExisting(DefaultInputFiles, fileExists);
      if f.Some? then Some(DefaultFile(f.value)) else None
  }

  /**
   * Reading the proof input as the source does, with the loop over the default
   * files. `None` is the exit with status 1: no source, or an empty default file.
   */
  method ReadProofInput(input: Option<string>, stdinIsTty: bool, stdin: string,
                        fileExists: string -> bool, readFile: string -> string)
    returns (proofInput: Option<string>)
    ensures var source := InputSourceSpec(input, stdinIsTty, fileExists);
      (source == Some(InputOption) ==> proofInput == Some(readFile(input.value))) &&
      (source == Some(Stdin) ==> proofInput == Some(stdin)) &&
      (source.Some? && source.value.DefaultFile? ==>
        proofInput == if readFile(source.value.name) == [] then None else Some(readFile(source.value.name))) &&
      (source.None? ==> proofInput.None?)
  {
    if StrTruthy(input) && fileExists(input.value) {
      return Some(readFile(input.value));
    } else if !stdinIsTty {
      return Some(stdin);
    }
    proofInput := None;
    for i := 0 to |DefaultInputFiles|
      invariant proofInput.None? ==> forall j :: 0 <= j < i ==> !fileExists(DefaultInputFiles[j])
      invariant proofInput.Some? ==> (FirstExisting(DefaultInputFiles, fileExists).Some? &&
        proofInput.value == readFile(FirstExisting(DefaultInputFiles, fileExists).value))
    {
      var file := DefaultInputFiles[i];
      if fileExists(file) {
        assert FirstExisting(DefaultInputFiles, fileExists) == Some(file) by {
          FirstExistingAt(DefaultInputFiles, fileExists, i);
        }
        proofInput := Some(readFile(file));
        break;
      }
    }
    if proofInput.Some? && proofInput.value == [] {
      proofInput := None;
    }
  }

  lemma FirstExistingAt(files: seq<string>, fileExists: string -> bool, i: nat)
    requires i < |files| && fileExists(files[i]) && forall j :: 0 <= j < i ==> !fileExists(files[j])
    ensures FirstExisting(files, fileExists) == Some(files[i])
  {
    var k := FirstExistingIndex(files, fileExists);
    assert k == Some(i);
  }

  /** What the proof request gives. */
  datatype ProveAnswer = Proved | ApiFailure(status: int) | OtherFailure

  datatype ProofExit = NotLoggedIn | DirectoryMissing | NoProjectFile | ProjectFileUnreadable | NoNameField | NoInput | RequestFailed

  datatype ProofResult = Exit1(reason: ProofExit) | Crashed | Printed | CircuitNotFound

  /** What reached the server: whether an input source was read and the identifier requested. */
  datatype ProofTrace = ProofTrace(inputRead: bool, identifier: Option<string>)

  /** How far `proof create` gets before the proof input is read. */
  datatype Preflight = Stop(result: ProofResult) | Ready(circuitName: Json)

  /**
   * The checks before the proof input is read, in order: credentials, the
   * directory, a `sindri.json` found upwards that parses to an object with a
   * `name` field.
   */
  function ProofPreflight(loggedIn: bool, directory: Path, fs: Snapshot, readProject: Path -> Option<Json>): (r: Preflight)
    ensures r.Ready? <==>
      (loggedIn && directory in fs &&
       var search := FindFileUpwards(IsSindriJsonName, directory, fs);
       search.Ok? && search.value.Some? &&
       var parsed := readProject(search.value.value);
       parsed.Some? && parsed.value.JObj? && Field(parsed.value.entries, "name").Some?)
    ensures r.Ready? ==>
      var parsed := readProject(FindFileUpwards(IsSindriJsonName, directory, fs).value.value);
      r.circuitName == Field(parsed.value.entries, "name").value
    ensures r.Stop? ==> !r.result.Printed? && !r.result.CircuitNotFound?
  {
    if !loggedIn then Stop(Exit1(NotLoggedIn))
    else if directory !in fs then Stop(Exit1(DirectoryMissing))
    else
      var search := FindFileUpwards(IsSindriJsonName, directory, fs);
      if search.Err? || search.value.None? then Stop(Exit1(NoProjectFile))
      else
        var parsed := readProject(search.value.value);
        if parsed.None? then Stop(Exit1(ProjectFileUnreadable))
        else if !(parsed.value.JObj? || parsed.value.JArr?) then Stop(Crashed)
        else if parsed.value.JArr? || Field(parsed.value.entries, "name").None? then Stop(Exit1(NoNameField))
        else Ready(Field(parsed.value.entries, "name").value)
  }

  /** Whether some source supplies a proof input the command accepts. */
  predicate InputSupplied(input: Option<string>, stdinIsTty: bool, fileExists: string -> bool, readFile: string -> string) {
    var source := InputSourceSpec(input, stdinIsTty, fileExists);
    source.Some? && !(source.value.DefaultFile? && readFile(source.value.name) == [])
  }

  /**
   * The `proof create` action. `loggedIn` is whether the CLI config holds
   * credentials; `toText` renders the `name` field in the identifier template.
   */
  method ProofAction(loggedIn: bool, directory: Path, fs: Snapshot, readProject: Path -> Option<Json>,
                     toText: Json -> string, tag: Option<string>, input: Option<string>, stdinIsTty: bool,
                     stdin: string, fileExists: string -> bool, readFile: string -> string, answer: ProveAnswer)
    returns (result: ProofResult, trace: ProofTrace)
    ensures ProofPreflight(loggedIn, directory, fs, readProject).Stop? ==>
      result == ProofPreflight(loggedIn, directory, fs, readProject).result && trace == ProofTrace(false, None)
    ensures ProofPreflight(loggedIn, directory, fs, readProject).Ready? ==>
      var pre := ProofPreflight(loggedIn, directory, fs, readProject);
      trace.inputRead &&
      (InputSupplied(input, stdinIsTty, fileExists, readFile) ==>
        trace.identifier == Some(toText(pre.circuitName) + ":" + TagOrDefault(tag))) &&
      (!InputSupplied(input, stdinIsTty, fileExists, readFile) ==>
        trace.identifier.None? && result == Exit1(NoInput))
    ensures !loggedIn ==> result == Exit1(NotLoggedIn) && trace == ProofTrace(false, None)
    ensures loggedIn && directory !in fs ==> result == Exit1(DirectoryMissing) && !trace.inputRead
    ensures trace.identifier.Some? ==> trace.inputRead
    ensures trace.identifier.Some? ==>
      (result == Printed <==> answer == Proved) &&
      (result == CircuitNotFound <==> answer == ApiFailure(404)) &&
      (answer != Proved && answer != ApiFailure(404) ==> result == Exit1(RequestFailed))
  {
    trace := ProofTrace(false, None);
    var pre := ProofPreflight(loggedIn, directory, fs, readProject);
    if pre.Stop? {
      return pre.result, trace;
    }
    trace := trace.(inputRead := true);
    var proofInput := ReadProofInput(input, stdinIsTty, stdin, fileExists, readFile);
    if proofInput.None? {
      return Exit1(NoInput), trace;
    }
    var identifier := toText(pre.circuitName) + ":" + TagOrDefault(tag);
    trace := trace.(identifier := Some(identifier));
    match answer {
      case Proved => result := Printed;
      case ApiFailure(status) =>
        if status == 404 {
          result := CircuitNotFound;
        } else {
          result := Exit1(RequestFailed);
        }
      case OtherFailure => result := Exit1(RequestFailed);
    }
  }
}
