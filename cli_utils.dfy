/**
 * The command-line helpers of src/cli/utils.ts: truthy environment strings,
 * the upward search for a project file over a directory snapshot, the local
 * or Docker choice of `execCommand`, the image and path computations of
 * `execDockerCommand`, the exit code of a local child process, and the tag
 * list of `getDockerImageTags`.
 *
 * A path is the sequence of its components below `/` (`[]` is the root).
 * Paths given to these operations are absolute and normalised: no component
 * is empty, `.` or `..`, and none holds a `/`.
 */
module CliUtils {
  import opened Wrappers
  import opened Text
  import opened Json

  type Path = seq<string>

  predicate NormalComponent(c: string) {
    c != [] && c != "." && c != ".." && '/' !in c
  }

  predicate NormalPath(p: Path) {
    forall i :: 0 <= i < |p| ==> NormalComponent(p[i])
  }

  /** The textual form of an absolute path. */
  function Render(p: Path): (r: string)
    ensures |r| >= 1 && r[0] == '/'
  {
    if p == [] then "/" else "/" + Join(p, '/')
  }

  // ---- isTruthy ----

  const TruthyWords: seq<string> := ["1", "true", "t", "yes", "y", "on"]

  /** `isTruthy`: the lower-cased string is one of the truthy words. */
  predicate IsTruthy(s: string) {
    Lower(s) in TruthyWords
  }

  predicate EqualIgnoringCase(a: string, b: string) {
    |a| == |b| && forall i :: 0 <= i < |a| ==> LowerChar(a[i]) == LowerChar(b[i])
  }

  /** A string is truthy exactly when it equals one of the truthy words up to ASCII case. */
  lemma TruthyIffWordIgnoringCase(s: string)
    ensures IsTruthy(s) <==> exists w :: w in TruthyWords && EqualIgnoringCase(s, w)
  {
    forall w | w in TruthyWords
      ensures Lower(s) == w <==> EqualIgnoringCase(s, w)
    {
      assert Lower(w) == w;
      if EqualIgnoringCase(s, w) {
        assert forall i :: 0 <= i < |s| ==> Lower(s)[i] == w[i];
      }
    }
  }

  /** `SINDRI_FORCE_DOCKER` unset reads as `"false"`, which is not truthy. */
  lemma UnsetIsNotTruthy()
    ensures !IsTruthy("false") && IsTruthy("TRUE") && IsTruthy("On") && !IsTruthy("")
  {
    assert Lower("TRUE") == "true";
    assert Lower("On") == "on";
    assert Lower("false") == "false";
  }

  // ---- findFileUpwards ----

  /** A directory snapshot: the names listed in each existing directory. */
  type Snapshot = map<Path, seq<string>>

  /** The first name in listing order that matches. */
  function FirstMatch(files: seq<string>, matches: string -> bool): (r: Option<string>)
    ensures r.Some? ==> r.value in files && matches(r.value)
    ensures r.Some? ==> exists i :: 0 <= i < |files| && files[i] == r.value &&
                                   (forall j :: 0 <= j < i ==> !matches(files[j]))
    ensures r.None? <==> forall i :: 0 <= i < |files| ==> !matches(files[i])
  {
    if files == [] then None
    else if matches(files[0]) then Some(files[0])
    else
      var r := FirstMatch(files[1..], matches);
      if r.Some? then
        var i :| 0 <= i < |files[1..]| && files[1..][i] == r.value &&
          forall j :: 0 <= j < i ==> !matches(files[1..][j]);
        assert files[i + 1] == r.value;
        r
      else r
  }

  /** Directory `dir[..k]` exists in the snapshot and lists no matching name. */
  predicate NoMatchAt(fs: Snapshot, dir: Path, k: nat, matches: string -> bool)
    requires k <= |dir|
  {
    dir[..k] in fs && FirstMatch(fs[dir[..k]], matches).None?
  }

  /** Why `readdirSync` throws. */
  datatype FsError = NoSuchDirectory(dir: Path)

  /**
   * What the upward search promises about outcome `r` from `dir`: a found path
   * is a name in the nearest ancestor `dir[..k]` that lists a match (the first
   * such name in listing order), every directory below it exists and lists
   * none; `None` means every ancestor up to the root exists and lists none; an
   * error names the nearest ancestor that does not exist.
   */
  ghost predicate NearestMatch(matches: string -> bool, dir: Path, fs: Snapshot, r: Result<Option<Path>, FsError>) {
    (r.Ok? && r.value.Some? ==>
      exists k :: 0 <= k <= |dir| && dir[..k] in fs &&
        |r.value.value| == k + 1 && r.value.value[..k] == dir[..k] &&
        FirstMatch(fs[dir[..k]], matches) == Some(r.value.value[k]) &&
        forall k' :: k < k' <= |dir| ==> NoMatchAt(fs, dir, k', matches)) &&
    (r.Ok? && r.value.None? ==>
      forall k :: 0 <= k <= |dir| ==> NoMatchAt(fs, dir, k, matches)) &&
    (r.Err? ==>
      exists k :: 0 <= k <= |dir| && dir[..k] !in fs && r.error == NoSuchDirectory(dir[..k]) &&
        forall k' :: k < k' <= |dir| ==> NoMatchAt(fs, dir, k', matches))
  }

  /**
   * `findFileUpwards`: the first matching name of the start directory, else
   * of its parent, and so on; `None` only after the root (whose parent is
   * itself) was searched. Reading a directory that does not exist throws.
   */
  function FindFileUpwards(matches: string -> bool, dir: Path, fs: Snapshot): (r: Result<Option<Path>, FsError>)
    decreases |dir|
    ensures NearestMatch(matches, dir, fs, r)
  {
    if dir !in fs then
      assert dir[..|dir|] == dir;
      Err(NoSuchDirectory(dir))
    else
      var found := FirstMatch(fs[dir], matches);
      if found.Some? then
        assert dir[..|dir|] == dir;
        assert (dir + [found.value])[..|dir|] == dir;
        Ok(Some(dir + [found.value]))
      else if dir == [] then
        assert forall k :: 0 <= k <= |dir| ==> dir[..k] == dir;
        Ok(None)
      else
        var r := FindFileUpwards(matches, dir[..|dir| - 1], fs);
        SearchParent(matches, dir, fs, r);
        r
  }

  /** A directory that exists and lists no match passes its parent's outcome on. */
  lemma SearchParent(matches: string -> bool, dir: Path, fs: Snapshot, r: Result<Option<Path>, FsError>)
    requires dir != [] && dir in fs && FirstMatch(fs[dir], matches).None?
    requires NearestMatch(matches, dir[..|dir| - 1], fs, r)
    ensures NearestMatch(matches, dir, fs, r)
  {
    var parent := dir[..|dir| - 1];
    assert forall k :: 0 <= k <= |parent| ==> parent[..k] == dir[..k];
    assert dir[..|dir|] == dir;
    assert NoMatchAt(fs, dir, |dir|, matches);
    if r.Ok? && r.value.Some? {
      var k :| 0 <= k <= |parent| && parent[..k] in fs &&
        |r.value.value| == k + 1 && r.value.value[..k] == parent[..k] &&
        FirstMatch(fs[parent[..k]], matches) == Some(r.value.value[k]) &&
        forall k' :: k < k' <= |parent| ==> NoMatchAt(fs, parent, k', matches);
      assert forall k' :: k < k' <= |dir| ==> NoMatchAt(fs, dir, k', matches) by {
        forall k' | k < k' <= |dir| ensures NoMatchAt(fs, dir, k', matches) {
          if k' < |dir| { assert NoMatchAt(fs, parent, k', matches); }
        }
      }
    } else if r.Ok? {
      forall k | 0 <= k <= |dir| ensures NoMatchAt(fs, dir, k, matches) {
        if k < |dir| { assert NoMatchAt(fs, parent, k, matches); }
      }
    } else {
      var k :| 0 <= k <= |parent| && parent[..k] !in fs && r.error == NoSuchDirectory(parent[..k]) &&
        forall k' :: k < k' <= |parent| ==> NoMatchAt(fs, parent, k', matches);
      forall k' | k < k' <= |dir| ensures NoMatchAt(fs, dir, k', matches) {
        if k' < |dir| { assert NoMatchAt(fs, parent, k', matches); }
      }
    }
  }

  /** The project file pattern `/^sindri.json$/i`: `.` stands for any character but a line terminator. */
  predicate IsSindriJsonName(f: string) {
    |f| == 11 && Lower(f[..6]) == "sindri" && Lower(f[7..]) == "json" &&
    f[6] !in {'\n', '\r', '\U{2028}', '\U{2029}'}
  }

  // ---- execCommand ----

  datatype ExecMethod = Local | Docker | Unavailable

  /**
   * `execCommand`'s choice: local unless `SINDRI_FORCE_DOCKER` (unset reads as
   * `"false"`) is truthy and the command exists locally; otherwise Docker when
   * the daemon answers; otherwise neither.
   */
  function ChooseExecMethod(forceDocker: Option<string>, existsLocally: bool, dockerAvailable: bool): (r: ExecMethod)
    ensures r == Local <==> !IsTruthy(forceDocker.GetOr("false")) && existsLocally
    ensures r == Docker <==> (IsTruthy(forceDocker.GetOr("false")) || !existsLocally) && dockerAvailable
    ensures r == Unavailable <==> (IsTruthy(forceDocker.GetOr("false")) || !existsLocally) && !dockerAvailable
  {
    if !IsTruthy(forceDocker.GetOr("false")) && existsLocally then Local
    else if dockerAvailable then Docker
    else Unavailable
  }

  /** Docker is used only when the local command is missing or forced away. */
  lemma LocalPreferred(existsLocally: bool, dockerAvailable: bool)
    requires existsLocally
    ensures ChooseExecMethod(None, existsLocally, dockerAvailable) == Local
  {
    UnsetIsNotTruthy();
  }

  // ---- execLocalCommand ----

  datatype ChildError = NeitherCodeNorSignal

  /**
   * The exit code reported for a closed child process: its own code, or 128
   * plus the signal number when it was killed by a signal; a close with
   * neither fails the assertion.
   */
  function LocalExitCode(code: Option<int>, signalNumber: Option<nat>): (r: Result<int, ChildError>)
    ensures code.Some? ==> r == Ok(code.value)
    ensures code.None? && signalNumber.Some? ==> r.Ok? && r.value > 128 - 1 && r.value - 128 == signalNumber.value
    ensures r.Err? <==> code.None? && signalNumber.None?
  {
    if code.None? && signalNumber.Some? then Ok(128 + signalNumber.value)
    else if code.Some? then Ok(code.value)
    else Err(NeitherCodeNorSignal)
  }

  // ---- execDockerCommand ----

  /** What `JSON.parse` of the project file gives: `None` when reading or parsing throws. */
  datatype ProjectFile = ProjectFile(path: Path, parsed: Option<Json>)

  datatype DockerError = UnsupportedCommand(command: string) | ProcessExit1 | ReadDirFailed(dir: Path)

  /**
   * The `noirVersion` field of a parsed project file, when the lookup does not
   * throw (`null.noirVersion` does; other non-objects give `undefined`).
   */
  function NoirVersion(parsed: Option<Json>): Option<Json> {
    if parsed.Some? && parsed.value.JObj? then Field(parsed.value.entries, "noirVersion") else None
  }

  /**
   * The image tag of `execDockerCommand`. For `nargo` with `auto`: a truthy
   * string `noirVersion` with `v` prefixed when missing; a truthy non-string
   * version is kept as it is (its `startsWith` call throws after the
   * assignment, and the `catch` keeps it), written in the tag by JavaScript's
   * string conversion `toText`; `latest` in every other case. Other supported
   * commands turn `auto` into `latest`; an unsupported command throws.
   */
  function ImageTag(command: string, tag: string, project: Option<ProjectFile>, toText: Json -> string)
    : (r: Result<string, DockerError>)
    ensures r.Err? <==> command != "nargo" && command != "circomspect"
    ensures r.Err? ==> r.error == UnsupportedCommand(command)
    ensures tag != "auto" && r.Ok? ==> r.value == tag
    ensures command == "circomspect" && tag == "auto" ==> r == Ok("latest")
    ensures command == "nargo" && tag == "auto" && (project.None? || project.value.parsed.None?) ==> r == Ok("latest")
    ensures command == "nargo" && tag == "auto" && project.Some? ==>
      var v := NoirVersion(project.value.parsed);
      (v.Some? && v.value.JStr? && v.value.s != [] ==>
         r.Ok? && StartsWith(r.value, "v") &&
         (StartsWith(v.value.s, "v") ==> r == Ok(v.value.s)) &&
         (!StartsWith(v.value.s, "v") ==> r == Ok("v" + v.value.s))) &&
      (FieldTruthy(v) && !v.value.JStr? ==> r == Ok(toText(v.value))) &&
      (!FieldTruthy(v) ==> r == Ok("latest"))
  {
    if command == "nargo" && tag == "auto" then
      if project.None? then Ok("latest")
      else
        var v := NoirVersion(project.value.parsed);
        if !FieldTruthy(v) then Ok("latest")
        else if v.value.JStr? then
          var s := v.value.s;
          if StartsWith(s, "v") then Ok(s) else Ok("v" + s)
        else Ok(toText(v.value))
    else if command == "circomspect" || command == "nargo" then
      Ok(if tag == "auto" then "latest" else tag)
    else Err(UnsupportedCommand(command))
  }

  /**
   * The bind-mount source: with `SINDRI_DEVELOPMENT_HOST_ROOT` set, a root that
   * is `/sindri` or under `/sindri/` has that prefix replaced by the host root
   * and any other root aborts; without it the root itself.
   */
  function MountDirectory(root: string, hostRoot: Option<string>): (r: Result<string, DockerError>)
    requires |root| >= 1 && root[0] == '/'
    ensures !StrTruthy(hostRoot) ==> r == Ok(root)
    ensures StrTruthy(hostRoot) && r.Ok? ==>
      exists rest :: root == "/sindri" + rest && r.value == hostRoot.value + rest && (rest == [] || rest[0] == '/')
    ensures StrTruthy(hostRoot) && r.Err? ==> r.error == ProcessExit1 && !StartsWith(root, "/sindri/") && root != "/sindri"
  {
    if !StrTruthy(hostRoot) then Ok(root)
    else if root == "/sindri" || StartsWith(root, "/sindri/") then
      assert root == "/sindri" + root[7..];
      Ok(hostRoot.value + root[7..])
    else Err(ProcessExit1)
  }

  /** A normal root path is remapped exactly when its first component is `sindri`. */
  lemma RemapIffUnderSindri(root: Path, host: string)
    requires NormalPath(root) && host != []
    ensures MountDirectory(Render(root), Some(host)).Ok? <==> |root| >= 1 && root[0] == "sindri"
  {
    if |root| >= 1 {
      var tail := if |root| == 1 then [] else "/" + Join(root[1..], '/');
      assert Render(root) == "/" + root[0] + tail by {
        if |root| > 1 { JoinCons(root, '/'); }
      }
      FirstComponentIsSindri(root[0], tail);
    }
  }

  lemma FirstComponentIsSindri(c: string, tail: string)
    requires c != [] && '/' !in c
    requires tail == [] || tail[0] == '/'
    ensures ("/" + c + tail == "/sindri" || StartsWith("/" + c + tail, "/sindri/")) <==> c == "sindri"
  {
    var s := "/" + c + tail;
    ComponentThenSlash(c, tail);
    if s == "/sindri" || StartsWith(s, "/sindri/") {
      assert forall j :: 1 <= j < 7 ==> s[j] == "/sindri"[j];
      assert |s| >= 7;
      if |c| < 6 {
        assert false;
      } else if |c| > 6 {
        assert false;
      } else {
        assert c == s[1..7];
      }
    }
    if c == "sindri" {
      assert s == "/sindri" + tail;
    }
  }

  lemma ComponentThenSlash(c: string, tail: string)
    ensures var s := "/" + c + tail;
      |s| == 1 + |c| + |tail| &&
      (forall j :: 0 <= j < |c| ==> s[1 + j] == c[j]) &&
      (tail != [] ==> s[1 + |c|] == tail[0]) &&
      (|c| > 6 ==> s[7] == c[6])
  {
  }

  /** `path.relative(from, to)` as components: `..` up to the common ancestor, then down to `to`. */
  function RelativeParts(from: Path, to: Path): (r: seq<string>)
    ensures (|from| <= |to| && to[..|from|] == from) ==> r == to[|from|..]
    ensures !(|from| <= |to| && to[..|from|] == from) ==> |r| >= 1 && r[0] == ".."
  {
    if from == [] then to
    else if to != [] && from[0] == to[0] then
      var r := RelativeParts(from[1..], to[1..]);
      assert (|from| <= |to| && to[..|from|] == from) <==>
        (|from[1..]| <= |to[1..]| && to[1..][..|from[1..]|] == from[1..]) by {
        if |from| <= |to| && to[1..][..|from| - 1] == from[1..] {
          assert to[..|from|] == [to[0]] + to[1..][..|from| - 1];
          assert from == [from[0]] + from[1..];
        }
      }
      r
    else
      Repeat("..", |from|) + to
  }

  function Repeat(s: string, n: nat): (r: seq<string>)
    ensures |r| == n && forall i :: 0 <= i < n ==> r[i] == s
  {
    if n == 0 then [] else [s] + Repeat(s, n - 1)
  }

  /** The string `path.relative` returns: `""` for the same directory. */
  function RelativePath(from: Path, to: Path): string {
    var parts := RelativeParts(from, to);
    if parts == [] then "" else Join(parts, '/')
  }

  /**
   * The container working directory as the source computes it: the project
   * root `/sindri/` when the relative path starts with `..`, otherwise
   * `/sindri/` joined with the relative path.
   */
  function InternalCwdAsWritten(root: Path, cwd: Path): string {
    var rel := RelativePath(root, cwd);
    if StartsWith(rel, "..") then "/sindri/" else "/sindri/" + rel
  }

  /**
   * The container working directory as intended: the same subdirectory of
   * `/sindri/` when the working directory lies in the project root, else the
   * root. The outside case is told by the first relative component being
   * `..`, not by the relative path's first two characters.
   */
  function InternalCwd(root: Path, cwd: Path): (r: string)
    requires NormalPath(cwd)
    ensures (|root| <= |cwd| && cwd[..|root|] == root) ==>
      r == "/sindri/" + (if |cwd| == |root| then "" else Join(cwd[|root|..], '/'))
    ensures !(|root| <= |cwd| && cwd[..|root|] == root) ==> r == "/sindri/"
  {
    var parts := RelativeParts(root, cwd);
    if parts != [] && parts[0] == ".." then "/sindri/"
    else
      assert |root| <= |cwd| && cwd[..|root|] == root;
      assert parts == cwd[|root|..];
      assert parts != [] ==> NormalComponent(cwd[|root|]);
      "/sindri/" + RelativePath(root, cwd)
  }

  /** Inside the root, a first component such as `..data` sends the source's test the wrong way. */
  lemma AsWrittenMisplacesDotDotNames()
    ensures var root := ["p"]; var cwd := ["p", "..data"];
      NormalPath(cwd) &&
      InternalCwdAsWritten(root, cwd) == "/sindri/" &&
      InternalCwd(root, cwd) == "/sindri/..data"
  {
    var root := ["p"];
    var cwd := ["p", "..data"];
    assert cwd[..1] == root;
    assert RelativeParts(root, cwd) == ["..data"];
    assert RelativePath(root, cwd) == "..data";
  }

  /** The two computations agree unless a first component below the root starts with `..`. */
  lemma AsWrittenAgreesOtherwise(root: Path, cwd: Path)
    requires NormalPath(cwd)
    requires |root| < |cwd| && cwd[..|root|] == root ==> !StartsWith(cwd[|root|], "..")
    ensures InternalCwdAsWritten(root, cwd) == InternalCwd(root, cwd)
  {
    var parts := RelativeParts(root, cwd);
    if parts != [] {
      JoinHeadPart(parts, '/');
    }
  }

  lemma {:induction false} JoinHeadPart(parts: seq<string>, sep: char)
    requires |parts| >= 1
    ensures StartsWith(Join(parts, sep), parts[0])
  {
    if |parts| > 1 {
      JoinCons(parts, sep);
      assert Join(parts, sep)[..|parts[0]|] == parts[0];
    }
  }

  /** What `execDockerCommand` passes to `docker.run` besides the arguments. */
  datatype DockerRun = DockerRun(image: string, mountDirectory: string, workingDir: string)

  /**
   * `execDockerCommand` up to the run: finds the project root (the given one,
   * else the directory of the nearest project file, else the working
   * directory), picks the image, pulls it (`pulled` is the outcome), remaps the
   * mount for the development container and maps the working directory into
   * the container.
   */
  method ExecDockerCommand(command: string, tag: string, cwd: Path, rootDirectory: Option<Path>,
                           fs: Snapshot, readProject: Path -> Option<Json>, toText: Json -> string,
                           pulled: bool, hostRoot: Option<string>)
    returns (r: Result<DockerRun, DockerError>)
    requires NormalPath(cwd) && (rootDirectory.Some? ==> NormalPath(rootDirectory.value))
    ensures var search := FindFileUpwards(IsSindriJsonName, cwd, fs);
      search.Err? ==> r == Err(ReadDirFailed(search.error.dir))
    ensures FindFileUpwards(IsSindriJsonName, cwd, fs).Ok? ==>
      var found := FindFileUpwards(IsSindriJsonName, cwd, fs).value;
      var root := if rootDirectory.Some? then rootDirectory.value
                  else if found.Some? then found.value[..|found.value| - 1] else cwd;
      var project := if found.Some? then Some(ProjectFile(found.value, readProject(found.value))) else None;
      var image := ImageTag(command, tag, project, toText);
      (image.Err? ==> r == Err(image.error)) &&
      (image.Ok? && !pulled ==> r == Err(ProcessExit1)) &&
      (image.Ok? && pulled && MountDirectory(Render(root), hostRoot).Err? ==> r == Err(ProcessExit1)) &&
      (r.Ok? <==> image.Ok? && pulled && MountDirectory(Render(root), hostRoot).Ok?) &&
      (r.Ok? ==>
         r.value.image == "sindrilabs/" + command + ":" + image.value &&
         MountDirectory(Render(root), hostRoot) == Ok(r.value.mountDirectory) &&
         r.value.workingDir == InternalCwd(root, cwd))
  {
    var search := FindFileUpwards(IsSindriJsonName, cwd, fs);
    if search.Err? {
      return Err(ReadDirFailed(search.error.dir));
    }
    var found := search.value;
    var root: Path;
    if rootDirectory.Some? {
      root := rootDirectory.value;
    } else if found.Some? {
      root := found.value[..|found.value| - 1];
    } else {
      root := cwd;
    }
    var project := if found.Some? then Some(ProjectFile(found.value, readProject(found.value))) else None;
    var image := ImageTag(command, tag, project, toText);
    if image.Err? {
      return Err(image.error);
    }
    if !pulled {
      return Err(ProcessExit1);
    }
    var mount := MountDirectory(Render(root), hostRoot);
    if mount.Err? {
      return Err(ProcessExit1);
    }
    var workingDir := InternalCwd(root, cwd);
    r := Ok(DockerRun("sindrilabs/" + command + ":" + image.value, mount.value, workingDir));
  }

  // ---- getDockerImageTags ----

  datatype TagRecord = TagRecord(name: string, tagStatus: string, lastUpdated: string)

  /** One page of the registry's answer; `hasNext` says whether a `next` URL came with it. */
  datatype TagPage = TagPage(results: seq<TagRecord>, hasNext: bool)

  function Flatten(pages: seq<TagPage>): seq<TagRecord> {
    if pages == [] then [] else pages[0].results + Flatten(pages[1..])
  }

  lemma FlattenSnoc(pages: seq<TagPage>, p: TagPage)
    ensures Flatten(pages + [p]) == Flatten(pages) + p.results
  {
    if pages != [] {
      assert (pages + [p])[1..] == pages[1..] + [p];
      FlattenSnoc(pages[1..], p);
    } else {
      assert [p][1..] == [];
    }
  }

  /**
   * The paging loop: follows `next` until a page has none, concatenating the
   * results. `pages` is the chain of answers the registry gives.
   */
  method CollectTagPages(pages: seq<TagPage>) returns (results: seq<TagRecord>)
    requires |pages| >= 1 && !pages[|pages| - 1].hasNext
    requires forall i :: 0 <= i < |pages| - 1 ==> pages[i].hasNext
    ensures results == Flatten(pages)
  {
    results := [];
    var i := 0;
    var more := true;
    while more
      invariant 0 <= i <= |pages|
      invariant more <==> i < |pages|
      invariant results == Flatten(pages[..i])
      decreases |pages| - i
    {
      FlattenSnoc(pages[..i], pages[i]);
      assert pages[..i + 1] == pages[..i] + [pages[i]];
      results := results + pages[i].results;
      more := pages[i].hasNext;
      i := i + 1;
    }
    assert pages[..i] == pages;
  }

  function ActiveNonDev(rs: seq<TagRecord>): (r: seq<TagRecord>)
    ensures forall i :: 0 <= i < |r| ==> r[i] in rs && r[i].tagStatus == "active" && r[i].name != "dev"
    ensures forall x :: x in rs && x.tagStatus == "active" && x.name != "dev" ==> x in r
  {
    if rs == [] then []
    else
      var rest := ActiveNonDev(rs[1..]);
      if rs[0].tagStatus == "active" && rs[0].name != "dev" then [rs[0]] + rest else rest
  }

  /** The filters keep records in order, each as often as it occurs: they distribute over concatenation ... */
  lemma {:induction false} ActiveNonDevConcat(a: seq<TagRecord>, b: seq<TagRecord>)
    ensures ActiveNonDev(a + b) == ActiveNonDev(a) + ActiveNonDev(b)
  {
    if a == [] {
      assert a + b == b;
    } else {
      assert (a + b)[0] == a[0] && (a + b)[1..] == a[1..] + b;
      ActiveNonDevConcat(a[1..], b);
    }
  }

  /** ... and keep a single record iff it is active and not `dev`. */
  lemma ActiveNonDevSingle(x: TagRecord)
    ensures ActiveNonDev([x]) == if x.tagStatus == "active" && x.name != "dev" then [x] else []
  {
    assert [x][1..] == [];
  }

  function Names(rs: seq<TagRecord>): (r: seq<string>)
    ensures |r| == |rs| && forall i :: 0 <= i < |rs| ==> r[i] == rs[i].name
  {
    if rs == [] then [] else [rs[0].name] + Names(rs[1..])
  }

  /**
   * The version comparator: `latest` after everything, otherwise
   * `compareVersions` (an oracle here), as "less or equal".
   */
  function VersionLe(compareVersions: (string, string) -> int): (string, string) -> bool {
    (a: string, b: string) => if a == "latest" then false else if b == "latest" then true else compareVersions(a, b) <= 0
  }

  /**
   * The version comparator with the tie between two `latest` names resolved
   * as "equal"; the source's comparator calls the first one greater.
   */
  function VersionLeTotal(compareVersions: (string, string) -> int): (string, string) -> bool {
    (a: string, b: string) => if b == "latest" then true else if a == "latest" then false else compareVersions(a, b) <= 0
  }

  /** `compareVersions` is a total preorder on the names other than `latest`. */
  ghost predicate VersionsTotalOn(s: seq<string>, compareVersions: (string, string) -> int) {
    (forall x, y :: x in s && y in s && x != "latest" && y != "latest" ==>
       compareVersions(x, y) <= 0 || compareVersions(y, x) <= 0) &&
    (forall x, y, z ::
       x in s && y in s && z in s && x != "latest" && y != "latest" && z != "latest" &&
       compareVersions(x, y) <= 0 && compareVersions(y, z) <= 0
       ==> compareVersions(x, z) <= 0)
  }

  lemma VersionLeTotalIsPreorder(s: seq<string>, compareVersions: (string, string) -> int)
    requires VersionsTotalOn(s, compareVersions)
    ensures TotalPreorderOn(s, VersionLeTotal(compareVersions))
  {
  }

  /** The two comparators insert alike unless a `latest` meets another `latest`. */
  lemma {:induction false} InsertIgnoresLatestTie(x: string, t: seq<string>, compareVersions: (string, string) -> int)
    requires x != "latest" || "latest" !in t
    ensures Insert(x, t, VersionLe(compareVersions)) == Insert(x, t, VersionLeTotal(compareVersions))
  {
    if t != [] {
      assert t[0] in t;
      assert VersionLe(compareVersions)(x, t[0]) == VersionLeTotal(compareVersions)(x, t[0]);
      if x == "latest" {
        assert "latest" !in t[1..] by { assert forall y :: y in t[1..] ==> y in t; }
      }
      InsertIgnoresLatestTie(x, t[1..], compareVersions);
    }
  }

  /** With at most one `latest`, sorting with either comparator gives the same list. */
  lemma {:induction false} SortIgnoresLatestTie(s: seq<string>, compareVersions: (string, string) -> int)
    requires multiset(s)["latest"] <= 1
    ensures SortBy(s, VersionLe(compareVersions)) == SortBy(s, VersionLeTotal(compareVersions))
  {
    if s != [] {
      assert s == [s[0]] + s[1..];
      assert multiset(s) == multiset{s[0]} + multiset(s[1..]);
      SortIgnoresLatestTie(s[1..], compareVersions);
      var t := SortBy(s[1..], VersionLe(compareVersions));
      if s[0] == "latest" {
        assert multiset(t)["latest"] == 0;
      }
      InsertIgnoresLatestTie(s[0], t, compareVersions);
    }
  }

  /** Inserting a record adds its name to the names, as a multiset. */
  lemma {:induction false} InsertNames(x: TagRecord, s: seq<TagRecord>, le: (TagRecord, TagRecord) -> bool)
    ensures multiset(Names(Insert(x, s, le))) == multiset(Names(s)) + multiset{x.name}
  {
    if s != [] && !le(x, s[0]) {
      InsertNames(x, s[1..], le);
      assert Names(s) == [s[0].name] + Names(s[1..]);
    }
  }

  /** Sorting records keeps their names, as a multiset. */
  lemma {:induction false} SortKeepsNames(s: seq<TagRecord>, le: (TagRecord, TagRecord) -> bool)
    ensures multiset(Names(SortBy(s, le))) == multiset(Names(s))
  {
    if s != [] {
      SortKeepsNames(s[1..], le);
      InsertNames(s[0], SortBy(s[1..], le), le);
      assert Names(s) == [s[0].name] + Names(s[1..]);
    }
  }

  /** Two positions holding `latest` make it occur at least twice. */
  lemma TwoLatest(r: seq<string>, i: nat, j: nat)
    requires i < j < |r| && r[i] == "latest" && r[j] == "latest"
    ensures multiset(r)["latest"] >= 2
  {
    assert r == r[..j] + r[j..];
    assert r[i] in r[..j] && r[j] in r[j..];
    assert multiset(r)["latest"] == multiset(r[..j])["latest"] + multiset(r[j..])["latest"];
  }

  /** The version order lifted to records, by name. */
  function ByName(le: (string, string) -> bool): (TagRecord, TagRecord) -> bool {
    (a: TagRecord, b: TagRecord) => le(a.name, b.name)
  }

  /**
   * `getDockerImageTags` after the paging: active, non-`dev` records, ordered
   * by `lastUpdated` (`localeCompare` is an oracle), names only, then ordered
   * by version with `latest` last. The result is the names of a reordering of
   * exactly the kept records.
   */
  function OrderTags(rs: seq<TagRecord>, localeCompare: (string, string) -> int,
                     compareVersions: (string, string) -> int): (r: seq<string>)
    ensures exists sorted: seq<TagRecord> ::
      multiset(sorted) == multiset(ActiveNonDev(rs)) && r == Names(sorted)
  {
    var kept := ActiveNonDev(rs);
    var byDate := SortBy(kept, (a: TagRecord, b: TagRecord) => localeCompare(a.lastUpdated, b.lastUpdated) <= 0);
    SortNamesCommute(byDate, VersionLe(compareVersions));
    SortBy(Names(byDate), VersionLe(compareVersions))
  }

  /**
   * When `compareVersions` orders the kept names and at most one of them is
   * `latest`, the tags come out sorted by the source's comparator.
   */
  lemma OrderTagsSorted(rs: seq<TagRecord>, localeCompare: (string, string) -> int,
                        compareVersions: (string, string) -> int)
    requires multiset(Names(ActiveNonDev(rs)))["latest"] <= 1
    requires VersionsTotalOn(Names(ActiveNonDev(rs)), compareVersions)
    ensures SortedBy(OrderTags(rs, localeCompare, compareVersions), VersionLe(compareVersions))
  {
    var kept := ActiveNonDev(rs);
    var byDate := SortBy(kept, (a: TagRecord, b: TagRecord) => localeCompare(a.lastUpdated, b.lastUpdated) <= 0);
    var names := Names(byDate);
    SortKeepsNames(kept, (a: TagRecord, b: TagRecord) => localeCompare(a.lastUpdated, b.lastUpdated) <= 0);
    assert VersionsTotalOn(names, compareVersions) by {
      forall x | x in names ensures x in Names(kept) {
        assert x in multiset(names);
      }
    }
    VersionLeTotalIsPreorder(names, compareVersions);
    SortIgnoresLatestTie(names, compareVersions);
    SortBySorted(names, VersionLeTotal(compareVersions));
    var r := SortBy(names, VersionLe(compareVersions));
    assert r == OrderTags(rs, localeCompare, compareVersions);
    forall i, j | 0 <= i < j < |r| ensures VersionLe(compareVersions)(r[i], r[j]) {
      if r[i] == "latest" && r[j] == "latest" {
        TwoLatest(r, i, j);
        assert false;
      }
    }
  }

  lemma {:induction false} InsertNamesCommute(x: TagRecord, s: seq<TagRecord>, le: (string, string) -> bool)
    ensures Insert(x.name, Names(s), le) == Names(Insert(x, s, ByName(le)))
  {
    if s != [] && !le(x.name, s[0].name) {
      InsertNamesCommute(x, s[1..], le);
      assert Names(s)[1..] == Names(s[1..]);
    }
  }

  /** Sorting the names equals taking the names of the records sorted by name. */
  lemma {:induction false} SortNamesCommute(s: seq<TagRecord>, le: (string, string) -> bool)
    ensures SortBy(Names(s), le) == Names(SortBy(s, ByName(le)))
  {
    if s != [] {
      SortNamesCommute(s[1..], le);
      assert Names(s)[1..] == Names(s[1..]);
      InsertNamesCommute(s[0], SortBy(s[1..], ByName(le)), le);
    }
  }

  /** A `latest` being inserted goes after every name. */
  lemma {:induction false} InsertLatestAtEnd(t: seq<string>, compareVersions: (string, string) -> int)
    ensures Insert("latest", t, VersionLe(compareVersions)) == t + ["latest"]
  {
    if t != [] {
      InsertLatestAtEnd(t[1..], compareVersions);
      assert t == [t[0]] + t[1..];
    }
  }

  /**
   * With at most one `latest` among the names, the ordered list has it last:
   * no other position holds `latest`.
   */
  lemma {:induction false} LatestSortsLast(s: seq<string>, compareVersions: (string, string) -> int)
    requires multiset(s)["latest"] <= 1
    ensures forall i :: 0 <= i < |s| - 1 ==> SortBy(s, VersionLe(compareVersions))[i] != "latest"
  {
    var le := VersionLe(compareVersions);
    if s != [] {
      assert s == [s[0]] + s[1..];
      var t := SortBy(s[1..], le);
      assert multiset(s) == multiset{s[0]} + multiset(s[1..]);
      LatestSortsLast(s[1..], compareVersions);
      if s[0] == "latest" {
        InsertLatestLast(t, compareVersions);
      } else {
        InsertOtherKeepsLatestLast(s[0], t, le);
      }
    }
  }

  lemma InsertLatestLast(t: seq<string>, compareVersions: (string, string) -> int)
    requires multiset(t)["latest"] == 0
    ensures forall i :: 0 <= i < |t| ==> Insert("latest", t, VersionLe(compareVersions))[i] != "latest"
  {
    InsertLatestAtEnd(t, compareVersions);
    forall i | 0 <= i < |t| ensures t[i] != "latest" {
      assert t[i] in multiset(t);
    }
  }

  lemma InsertOtherKeepsLatestLast(x: string, t: seq<string>, le: (string, string) -> bool)
    requires x != "latest" && le(x, "latest")
    requires forall i :: 0 <= i < |t| - 1 ==> t[i] != "latest"
    ensures forall i :: 0 <= i < |t| ==> Insert(x, t, le)[i] != "latest"
  {
    var k := InsertShape(x, t, le);
    var r := Insert(x, t, le);
    forall i | 0 <= i < |t| ensures r[i] != "latest" {
      if i < k {
        assert r[i] == t[i];
        assert !le(x, t[i]);
      } else if i == k {
        assert r[i] == x;
      } else {
        assert r[i] == t[i - 1];
      }
    }
  }
}
