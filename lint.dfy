/**
 * The `lint` command of src/cli/lint.ts: narrowing the Sindri manifest JSON
 * Schema to the sub-schema of the project's circuit type, formatting each
 * validation error, and counting errors and warnings to decide the exit
 * status. The JSON Schema validator is a foreign library and is a parameter.
 */
module Lint {
  import opened Wrappers
  import opened Text
  import opened Json
  import opened CliUtils

  /** One entry of the manifest schema's top-level `anyOf`; only its `$ref` matters here. */
  datatype SchemaOption = SchemaOption(ref: Option<string>)

  /** The case-insensitive regex test `/pattern/i.test(s)` for a lowercase ASCII pattern: a substring search. */
  predicate ContainsIgnoringCase(s: string, pattern: string) {
    exists i :: 0 <= i <= |s| - |pattern| && MatchesAt(s, pattern, i)
  }

  predicate MatchesAt(s: string, pattern: string, i: int)
    requires 0 <= i <= |s| - |pattern|
  {
    Lower(s[i..i + |pattern|]) == pattern
  }

  /** The test applied to an option: `pattern` against `option["$ref"] ?? ""`. */
  predicate RefMatches(o: SchemaOption, pattern: string) {
    ContainsIgnoringCase(o.ref.GetOr(""), pattern)
  }

  /** The index `anyOf.find(...)` stops at: the first option whose `$ref` matches. */
  function FindRefIndex(options: seq<SchemaOption>, pattern: string): (r: Option<nat>)
    ensures r.Some? ==> (r.value < |options| && RefMatches(options[r.value], pattern) &&
      forall j :: 0 <= j < r.value ==> !RefMatches(options[j], pattern))
    ensures r.None? <==> forall i :: 0 <= i < |options| ==> !RefMatches(options[i], pattern)
  {
    if options == [] then None
    else if RefMatches(options[0], pattern) then Some(0)
    else
      var r := FindRefIndex(options[1..], pattern);
      assert forall i :: 1 <= i < |options| ==> options[i] == options[1..][i - 1];
      if r.None? then None else Some(r.value + 1)
  }

  /** `anyOf.find(...)`: the first option whose `$ref` matches, `None` for `undefined`. */
  function FindRef(options: seq<SchemaOption>, pattern: string): (r: Option<SchemaOption>)
    ensures r.Some? ==> r.value in options && RefMatches(r.value, pattern)
    ensures r.None? <==> forall o :: o in options ==> !RefMatches(o, pattern)
    ensures forall i :: (0 <= i < |options| && RefMatches(options[i], pattern) &&
      forall j :: 0 <= j < i ==> !RefMatches(options[j], pattern)) ==> r == Some(options[i])
  {
    var i := FindRefIndex(options, pattern);
    if i.None? then None else Some(options[i.value])
  }

  /** `anyOf.filter(...)`: the matching options, in order. */
  function FilterRef(options: seq<SchemaOption>, pattern: string): (r: seq<SchemaOption>)
    ensures forall o :: o in r <==> o in options && RefMatches(o, pattern)
    ensures |r| <= |options|
  {
    if options == [] then []
    else (if RefMatches(options[0], pattern) then [options[0]] else []) + FilterRef(options[1..], pattern)
  }

  /** The filter keeps options in order, each as often as it occurs: it distributes over concatenation ... */
  lemma {:induction false} FilterRefConcat(a: seq<SchemaOption>, b: seq<SchemaOption>, pattern: string)
    ensures FilterRef(a + b, pattern) == FilterRef(a, pattern) + FilterRef(b, pattern)
  {
    if a == [] {
      assert a + b == b;
    } else {
      assert (a + b)[0] == a[0] && (a + b)[1..] == a[1..] + b;
      FilterRefConcat(a[1..], b, pattern);
    }
  }

  /** ... and keeps a single option iff its `$ref` matches. */
  lemma FilterRefSingle(o: SchemaOption, pattern: string)
    ensures FilterRef([o], pattern) == if RefMatches(o, pattern) then [o] else []
  {
    assert [o][1..] == [];
  }

  /** The narrowing chosen for the manifest schema. */
  datatype SubSchema =
    | NoSubSchema                            // `undefined`: the schema is used as it is
    | Picked(option: SchemaOption)          // a single `anyOf` entry replaces `anyOf`
    | OneOfHalo2(options: seq<SchemaOption>) // `{anyOf: [...]}` with the halo2 entries only

  /** The narrowing from an `anyOf.find(...)` result: `undefined` narrows nothing. */
  function FoundOrNone(found: Option<SchemaOption>): SubSchema {
    if found.Some? then Picked(found.value) else NoSubSchema
  }

  /** `key in value`: `None` when the `in` operator throws (the value is not an object). */
  function HasKey(value: Json, key: string): (r: Option<bool>)
    ensures r.None? <==> !(value.JObj? || value.JArr?)
  {
    match value
    case JObj(entries) => Some(Field(entries, key).Some?)
    case JArr(_) => Some(false)
    case _ => None
  }

  /** A string-valued field equal to `s` (the strict comparison `project[key] === s`). */
  predicate FieldIs(project: Json, key: string, s: string) {
    project.JObj? && Field(project.entries, key) == Some(JStr(s))
  }

  /**
   * The sub-schema selection. `Err` is the `TypeError` that `in` raises when
   * `sindri.json` holds a primitive rather than an object or array.
   */
  function SelectSubSchema(project: Json, anyOf: seq<SchemaOption>): (r: Result<SubSchema, string>)
    ensures r.Err? <==> !(project.JObj? || project.JArr?)
    ensures r.Ok? && r.value.Picked? ==> r.value.option in anyOf
    ensures r.Ok? && r.value.Picked? && FieldIs(project, "circuitType", "circom") ==> RefMatches(r.value.option, "circom")
    ensures r.Ok? && r.value.Picked? && FieldIs(project, "circuitType", "gnark") ==> RefMatches(r.value.option, "gnark")
    ensures r.Ok? && r.value.Picked? && FieldIs(project, "circuitType", "noir") ==> RefMatches(r.value.option, "noir")
    ensures r.Ok? && r.value.Picked? && FieldIs(project, "circuitType", "halo2") ==>
      RefMatches(r.value.option, "halo2axiomv022")
    ensures r.Ok? && r.value.OneOfHalo2? ==>
      FieldIs(project, "circuitType", "halo2") &&
      !FieldIs(project, "halo2Version", "axiom-v0.2.2") && !FieldIs(project, "halo2Version", "axiom-v0.3.0") &&
      forall o :: o in r.value.options <==> o in anyOf && RefMatches(o, "halo2")
    ensures project.JArr? || (project.JObj? && !FieldTruthy(Field(project.entries, "circuitType"))) ==>
      r == Ok(NoSubSchema)
    ensures FieldIs(project, "circuitType", "circom") ==> r == Ok(FoundOrNone(FindRef(anyOf, "circom")))
    ensures FieldIs(project, "circuitType", "gnark") ==> r == Ok(FoundOrNone(FindRef(anyOf, "gnark")))
    ensures FieldIs(project, "circuitType", "noir") ==> r == Ok(FoundOrNone(FindRef(anyOf, "noir")))
    ensures (FieldIs(project, "circuitType", "halo2") &&
      !FieldIs(project, "halo2Version", "axiom-v0.2.2") && !FieldIs(project, "halo2Version", "axiom-v0.3.0")) ==>
      r == Ok(OneOfHalo2(FilterRef(anyOf, "halo2")))
  {
    var hasType := HasKey(project, "circuitType");
    if hasType.None? then Err("TypeError")
    else if !hasType.value || !FieldTruthy(Field(project.entries, "circuitType")) then Ok(NoSubSchema)
    else
      var found :=
        if FieldIs(project, "circuitType", "circom") then Some(FindRef(anyOf, "circom"))
        else if FieldIs(project, "circuitType", "gnark") then Some(FindRef(anyOf, "gnark"))
        else if FieldIs(project, "circuitType", "halo2") then
          if FieldIs(project, "halo2Version", "axiom-v0.2.2") || FieldIs(project, "halo2Version", "axiom-v0.3.0")
          then Some(FindRef(anyOf, "halo2axiomv022"))
          else None
        else if FieldIs(project, "circuitType", "noir") then Some(FindRef(anyOf, "noir"))
        else Some(None);
      if found.None? then Ok(OneOfHalo2(FilterRef(anyOf, "halo2")))
      else if found.value.None? then Ok(NoSubSchema)
      else Ok(Picked(found.value.value))
  }

  /** The two axiom versions narrow to the same (v0.2.2) schema entry. */
  lemma AxiomVersionsShareSchema(entries: seq<(string, Json)>, anyOf: seq<SchemaOption>)
    requires Field(entries, "circuitType") == Some(JStr("halo2"))
    requires Field(entries, "halo2Version") in {Some(JStr("axiom-v0.2.2")), Some(JStr("axiom-v0.3.0"))}
    ensures SelectSubSchema(JObj(entries), anyOf) == Ok(FoundOrNone(FindRef(anyOf, "halo2axiomv022")))
  {
    var project := JObj(entries);
    assert FieldIs(project, "circuitType", "halo2");
    assert !FieldIs(project, "circuitType", "circom") && !FieldIs(project, "circuitType", "gnark");
    assert FieldIs(project, "halo2Version", "axiom-v0.2.2") || FieldIs(project, "halo2Version", "axiom-v0.3.0");
  }

  /** A circuit type outside the four known names leaves the schema un-narrowed. */
  lemma UnknownTypeNotNarrowed(entries: seq<(string, Json)>, anyOf: seq<SchemaOption>)
    requires forall t :: t in ["circom", "gnark", "halo2", "noir"] ==> Field(entries, "circuitType") != Some(JStr(t))
    ensures SelectSubSchema(JObj(entries), anyOf) == Ok(NoSubSchema)
  {
    assert Field(entries, "circuitType") != Some(JStr("circom"));
    assert Field(entries, "circuitType") != Some(JStr("gnark"));
    assert Field(entries, "circuitType") != Some(JStr("halo2"));
    assert Field(entries, "circuitType") != Some(JStr("noir"));
  }

  /** Whether the narrowing counts as present (`if (subSchema)`): a filtered `{anyOf}` object always does. */
  predicate Narrowed(s: SubSchema) {
    !s.NoSubSchema?
  }

  /** `.replace(/^instance/, "sindri.json")`. */
  function ReplaceLeadingInstance(p: string): (r: string)
    ensures StartsWith(p, "instance") ==> r == "sindri.json" + p[8..]
    ensures !StartsWith(p, "instance") ==> r == p
  {
    if StartsWith(p, "instance") then "sindri.json" + p[8..] else p
  }

  /** `.replace(/\./g, ":")`. */
  function DotsToColons(p: string): (r: string)
    ensures |r| == |p| && '.' !in r
    ensures forall i :: 0 <= i < |p| ==> r[i] == (if p[i] == '.' then ':' else p[i])
  {
    if p == [] then [] else [if p[0] == '.' then ':' else p[0]] + DotsToColons(p[1..])
  }

  /** `:title` when the failing schema has a (truthy) title. */
  function TitleSuffix(title: Option<string>): string {
    if StrTruthy(title) then ":" + title.value else ""
  }

  /**
   * The prefix as written: the dot replacement runs after "instance" has been
   * replaced, so it also rewrites the dot of "sindri.json".
   */
  function ErrorPrefixAsWritten(property: string, title: Option<string>): (r: string)
    ensures StartsWith(property, "instance") ==> StartsWith(r, "sindri:json")
  {
    DotsToColons(ReplaceLeadingInstance(property)) + TitleSuffix(title)
  }

  /** The prefix as evidently intended: the path's dots become colons and the root is named "sindri.json". */
  function ErrorPrefix(property: string, title: Option<string>): (r: string)
    ensures StartsWith(property, "instance") ==>
      r == "sindri.json" + DotsToColons(property[8..]) + TitleSuffix(title)
    ensures !StartsWith(property, "instance") ==> r == DotsToColons(property) + TitleSuffix(title)
  {
    DotsToColonsKeepsInstance(property);
    ReplaceLeadingInstance(DotsToColons(property)) + TitleSuffix(title)
  }

  /** "instance" holds no dot, so replacing dots neither creates nor destroys that prefix. */
  lemma DotsToColonsKeepsInstance(p: string)
    ensures StartsWith(DotsToColons(p), "instance") <==> StartsWith(p, "instance")
    ensures StartsWith(p, "instance") ==> DotsToColons(p)[8..] == DotsToColons(p[8..])
  {
    var d := DotsToColons(p);
    var w := "instance";
    assert ':' !in w && '.' !in w;
    if |p| >= 8 {
      forall i | 0 <= i < 8 ensures d[i] == w[i] <==> p[i] == w[i] {
        assert w[i] in w;
      }
      if p[..8] == w {
        assert forall i :: 0 <= i < 8 ==> d[..8][i] == w[i];
      }
      if d[..8] == w {
        assert forall i :: 0 <= i < 8 ==> p[..8][i] == w[i];
      }
      assert d[8..] == DotsToColons(p[8..]);
    }
  }

  /** Every error about the whole manifest is reported under "sindri:json" instead of "sindri.json". */
  lemma AsWrittenManglesFileName(rest: string, title: Option<string>)
    ensures ErrorPrefixAsWritten("instance" + rest, title) == "sindri:json" + DotsToColons(rest) + TitleSuffix(title)
    ensures ErrorPrefix("instance" + rest, title) == "sindri.json" + DotsToColons(rest) + TitleSuffix(title)
  {
    var p := "instance" + rest;
    assert p[..8] == "instance" && p[8..] == rest;
    DotsToColonsAppend("sindri.json", rest);
    FileNameColon();
  }

  lemma FileNameColon()
    ensures DotsToColons("sindri.json") == "sindri:json"
  {
    var front, back := "sindri", "json";
    DotlessParts();
    assert DotsToColons(['.'] + back) == [':'] + back by { DotsToColonsAppend(['.'], back); }
    assert DotsToColons(front + (['.'] + back)) == front + ([':'] + back) by {
      DotsToColonsAppend(front, ['.'] + back);
    }
    assert front + (['.'] + back) == "sindri.json";
    assert front + ([':'] + back) == "sindri:json";
  }

  lemma DotlessParts()
    ensures DotsToColons("sindri") == "sindri" && DotsToColons("json") == "json"
  {
    NoDotUnchanged("sindri");
    NoDotUnchanged("json");
  }

  lemma NoDotUnchanged(s: string)
    requires '.' !in s
    ensures DotsToColons(s) == s
  {
  }

  lemma DotsToColonsAppend(a: string, b: string)
    ensures DotsToColons(a + b) == DotsToColons(a) + DotsToColons(b)
  {
    var l := DotsToColons(a + b);
    var r := DotsToColons(a) + DotsToColons(b);
    assert |l| == |r|;
    forall i | 0 <= i < |l| ensures l[i] == r[i] {
      if i < |a| { assert (a + b)[i] == a[i]; } else { assert (a + b)[i] == b[i - |a|]; }
    }
  }

  /** The example a manifest missing "name" produces. */
  lemma PrefixExample()
    ensures ErrorPrefixAsWritten("instance.name", None) == "sindri:json:name"
    ensures ErrorPrefix("instance.name", None) == "sindri.json:name"
  {
    PrefixExampleAsWritten();
    PrefixExampleIntended();
  }

  lemma PrefixExampleAsWritten()
    ensures ErrorPrefixAsWritten("instance.name", None) == "sindri:json:name"
  {
    AsWrittenManglesFileName(".name", None);
    assert "instance" + ".name" == "instance.name";
    NameSuffixColon();
    assert "sindri:json" + ":name" + "" == "sindri:json:name";
  }

  lemma PrefixExampleIntended()
    ensures ErrorPrefix("instance.name", None) == "sindri.json:name"
  {
    AsWrittenManglesFileName(".name", None);
    assert "instance" + ".name" == "instance.name";
    NameSuffixColon();
    assert "sindri.json" + ":name" + "" == "sindri.json:name";
  }

  lemma NameSuffixColon()
    ensures DotsToColons(".name") == ":name"
  {
    NoDotUnchanged("name");
    DotsToColonsAppend(".", "name");
    assert "." + "name" == ".name";
  }

  /** A validation error reported by the JSON Schema validator. */
  datatype ValidationError = ValidationError(property: string, title: Option<string>, message: string)

  function ErrorLine(e: ValidationError): string {
    ErrorPrefix(e.property, e.title) + " " + e.message
  }

  /** The reporting loop: one logged line and one counted error per validation error. */
  method ReportErrors(errors: seq<ValidationError>) returns (lines: seq<string>, errorCount: nat)
    ensures errorCount == |errors| && |lines| == |errors|
    ensures forall i :: 0 <= i < |errors| ==> lines[i] == ErrorLine(errors[i])
  {
    lines, errorCount := LogEach(errors, ErrorLine);
  }

  /** The loop itself, over any line format: each item logs one line and adds one to the count. */
  method LogEach<T>(items: seq<T>, format: T -> string) returns (lines: seq<string>, count: nat)
    ensures count == |items| && |lines| == |items|
    ensures forall i :: 0 <= i < |items| ==> lines[i] == format(items[i])
  {
    lines := [];
    count := 0;
    for i := 0 to |items|
      invariant count == i && |lines| == i
      invariant forall k :: 0 <= k < i ==> lines[k] == format(items[k])
    {
      lines := lines + [format(items[i])];
      count := count + 1;
    }
  }

  datatype LintExit = SchemaMissing | DirectoryMissing | NoProjectFile | ProjectFileUnreadable

  datatype LintResult =
    | Aborted(reason: LintExit)
    | Crashed
    | Linted(errorLines: seq<string>, errorCount: nat, warningCount: nat, failed: bool)

  /** How far `lint` gets before the manifest is validated. */
  datatype Preflight = Stop(reason: LintExit) | Ready(projectPath: Path, project: Json, anyOf: seq<SchemaOption>)

  /**
   * The checks `lint` makes before validating, in order: the schema file is
   * loaded, the directory exists, a `sindri.json` is found upwards and it
   * parses.
   */
  function LintPreflight(schema: Option<seq<SchemaOption>>, directory: Path, fs: Snapshot,
                         readProject: Path -> Option<Json>): (r: Preflight)
    ensures r.Ready? <==>
      (schema.Some? && directory in fs &&
       FindFileUpwards(IsSindriJsonName, directory, fs).Ok? &&
       FindFileUpwards(IsSindriJsonName, directory, fs).value.Some? &&
       readProject(FindFileUpwards(IsSindriJsonName, directory, fs).value.value).Some?)
    ensures r.Ready? ==>
      (r.projectPath != [] && Some(r.anyOf) == schema &&
       FindFileUpwards(IsSindriJsonName, directory, fs) == Ok(Some(r.projectPath)) &&
       readProject(r.projectPath) == Some(r.project))
  {
    if schema.None? then Stop(SchemaMissing)
    else if directory !in fs then Stop(DirectoryMissing)
    else
      var search := FindFileUpwards(IsSindriJsonName, directory, fs);
      if search.Err? || search.value.None? then Stop(NoProjectFile)
      else
        var parsed := readProject(search.value.value);
        if parsed.None? then Stop(ProjectFileUnreadable)
        else Ready(search.value.value, parsed.value, schema.value)
  }

  /**
   * The `lint` action. `schema` is the loaded manifest's `anyOf` (`None` when
   * the schema file is missing), `validate` the JSON Schema validator applied
   * to the narrowed schema.
   */
  method LintAction(schema: Option<seq<SchemaOption>>, directory: Path, fs: Snapshot,
                    readProject: Path -> Option<Json>, validate: (Json, SubSchema) -> seq<ValidationError>)
    returns (result: LintResult)
    ensures LintPreflight(schema, directory, fs, readProject).Stop? ==>
      result == Aborted(LintPreflight(schema, directory, fs, readProject).reason)
    ensures LintPreflight(schema, directory, fs, readProject).Ready? ==>
      var pre := LintPreflight(schema, directory, fs, readProject);
      (result.Linted? <==> SelectSubSchema(pre.project, pre.anyOf).Ok?) &&
      (result.Crashed? <==> SelectSubSchema(pre.project, pre.anyOf).Err?)
    ensures result.Linted? ==> (result.failed <==> result.errorCount > 0)
    ensures result.Linted? ==>
      var pre := LintPreflight(schema, directory, fs, readProject);
      pre.Ready? && SelectSubSchema(pre.project, pre.anyOf).Ok? &&
      var selection := SelectSubSchema(pre.project, pre.anyOf).value;
      var errors := validate(pre.project, selection);
      var root := pre.projectPath[..|pre.projectPath| - 1];
      result.errorCount == |errors| &&
      |result.errorLines| == |errors| &&
      (forall i :: 0 <= i < |errors| ==> result.errorLines[i] == ErrorLine(errors[i])) &&
      result.warningCount ==
        (if Narrowed(selection) then 0 else 1) + (if root in fs && "README.md" in fs[root] then 0 else 1)
  {
    var pre := LintPreflight(schema, directory, fs, readProject);
    if pre.Stop? {
      return Aborted(pre.reason);
    }
    var project := pre.project;
    var errorCount: nat := 0;
    var warningCount: nat := 0;
    var selection := SelectSubSchema(project, pre.anyOf);
    if selection.Err? {
      return Crashed;
    }
    if !Narrowed(selection.value) {
      warningCount := warningCount + 1;
    }
    var errors := validate(project, selection.value);
    var lines, reported := ReportErrors(errors);
    errorCount := errorCount + reported;
    var root := pre.projectPath[..|pre.projectPath| - 1];
    if !(root in fs && "README.md" in fs[root]) {
      warningCount := warningCount + 1;
    }
    result := Linted(lines, errorCount, warningCount, errorCount > 0);
  }

  /** The aborting checks, case by case. */
  lemma LintPreflightStops(schema: Option<seq<SchemaOption>>, directory: Path, fs: Snapshot,
                           readProject: Path -> Option<Json>)
    ensures schema.None? ==> LintPreflight(schema, directory, fs, readProject) == Stop(SchemaMissing)
    ensures schema.Some? && directory !in fs ==> LintPreflight(schema, directory, fs, readProject) == Stop(DirectoryMissing)
    ensures (schema.Some? && directory in fs &&
             (!FindFileUpwards(IsSindriJsonName, directory, fs).Ok? ||
              FindFileUpwards(IsSindriJsonName, directory, fs) == Ok(None)))
      ==> LintPreflight(schema, directory, fs, readProject) == Stop(NoProjectFile)
  {
  }
}
