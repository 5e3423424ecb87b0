# Sindri SDK and CLI, and the halo2 "equal" gadget, in Dafny

This project models the core of the Sindri TypeScript SDK and its `sindri` command-line client:

- how circuit metadata is decoded from the `SINDRI_META` environment variable, validated and merged;
- the helpers shared by the CLI commands: `isTruthy`, `findFileUpwards`, the choice between a local and a Docker command, the Docker working directory, and the ordering of Docker image tags;
- the `deploy`, `clone`, `init`, `lint`, `project delete` and `proof create` commands, up to the requests they send;
- the API client's `authorize` and the two configuration files (the SDK's and the CLI's);
- the test helper that compares multipart request bodies against recorded ones;
- the `EqualChip` halo2 gadget, and the circuit that proves two private values `x` and `y` equal by exposing `y` and `x - y` as public inputs.

Conventions used throughout:

- The file system is a snapshot: a map from absolute paths, as component sequences, to directory listings.
- Whatever the code obtains from a library or from the outside is a function-valued parameter, an "oracle". This covers `JSON.parse`, zod's URL check, `compareVersions`, the tarball parser, the multipart splitter, and the server's answers.
- The halo2 model works over an arbitrary field modulus `p > 1`. Values are integers compared modulo `p`.
- The constraint system and the layouter are classes whose methods update their fields, as the Rust objects are.

## Model

| member | source | states |
|---|---|---|
| Json.FieldLastWins | src/cli/project.ts:69-73 | reading a key of a parsed object gives the value of the last entry with that key, as `JSON.parse` keeps the last duplicate |
| Meta.ValidateMetaEntry | src/lib/utils.ts:150-182 | an entry is accepted iff the key is 1..64 UTF-16 code units long and matches `^[a-zA-Z][a-zA-Z0-9_-]*$`, and the value is at most 4096 code units long (the lower bound 0 never fails); each rejection reason holds exactly when its check is the first to fail |
| Text.Utf16Length | src/lib/utils.ts:159-177 | JavaScript's `.length`: between one and two code units per character, exactly one each when no character is astral |
| Text.Utf16LengthOfEmoji | src/lib/utils.ts:173 | an emoji counts as two code units |
| Meta.MetaKeyLength | src/lib/utils.ts:159-168 | a key matching the key pattern has as many code units as characters |
| Meta.LongAstralValueRejected | src/lib/utils.ts:173-177 | a value of 2049 astral characters, 4098 code units, is rejected for its length |
| Meta.ValidationFilter | src/lib/utils.ts:38-70 | every kept entry is valid and came from the input with a string value; without `raise` it never throws; with `raise` and success nothing was dropped |
| Meta.FilterConcat | src/lib/utils.ts:38-70 | without `raise`, filtering a concatenation is the concatenation of the filtered parts, so order and repetitions are kept |
| Meta.FilterSingle | src/lib/utils.ts:38-70 | without `raise`, a single entry is kept, with its string, iff its value is a string and the entry is valid |
| Meta.FilterRaiseIff | src/lib/utils.ts:38-70 | with `raise`, filtering succeeds iff every value is a string and every entry valid, and then returns every entry in order |
| Meta.FromEntries | src/lib/utils.ts:97 | every input key is in the map and every map entry comes from some input pair |
| Meta.FromEntriesLastWins | src/lib/utils.ts:97 | the value stored for a key is that of the last pair with that key |
| Meta.RestoreColons | src/lib/utils.ts:100 | restoring the `\0` placeholder keeps the segment's length |
| Meta.ColonSegments | src/lib/utils.ts:98-100 | splitting the colon format yields at least one segment |
| Meta.ColonSegmentsOfEncoding | src/lib/utils.ts:98-100 | splitting the encoding of valid entries at unescaped `:` gives back each entry as `key=value` |
| Meta.SegmentsWithEquals | src/lib/utils.ts:102-114 | kept segments all contain `=` and come from the input; without `raise` no error; an error names a segment lacking `=`; if all have `=`, all are kept |
| Meta.SplitSegment | src/lib/utils.ts:115-118 | the key holds no `=` and `key + "=" + value` gives the segment back (split at the first `=`) |
| Meta.SplitSegments | src/lib/utils.ts:115-118 | one entry per segment |
| Meta.DecodedEntriesAreValid | src/lib/utils.ts:73-121 | every entry of a successfully decoded metadata map passes `validateMetaEntry` |
| Meta.DecodeWithoutRaiseSucceeds | src/lib/utils.ts:73-121 | decoding without `raise` never throws |
| Meta.JsonFailureNeverFallsBack | src/lib/utils.ts:73-92 | input starting with `{` that fails to parse gives `{}` or throws, and is never read in the colon format |
| Meta.ColonBranch | src/lib/utils.ts:94-121 | set, non-empty input that does not start with `{` is decoded in the colon format |
| Meta.ColonFormatRoundTrip | src/lib/utils.ts:94-121 | decoding the colon-format encoding of valid entries (with `:` escaped as `::`) gives back the entries' map |
| Meta.DefaultMetaRoundTrip | src/lib/utils.ts:73-121 | with `SINDRI_META` set to such an encoding, `getDefaultMeta` returns the entries' map |
| Meta.MergeKeepsCallerAndDefaults | src/lib/utils.ts:132-141 | the merge keeps every caller value, keeps the default for every other default key, and has exactly the union of the keys |
| Meta.DefaultMetaCache.constructor | src/lib/utils.ts:3 | the cache starts empty |
| Meta.DefaultMetaCache.GetDefaultMeta | src/lib/utils.ts:18-35 | a filled cache is returned as is when `cache` holds; otherwise the decoded value is returned and, on success, stored |
| Meta.DefaultMetaCache.ValidateMetaAndMergeWithDefaults | src/lib/utils.ts:132-141 | the defaults are loaded first and a decoding failure is raised before any caller entry is checked; otherwise the first invalid caller entry raises its error; with every entry valid the result is the defaults, cached or freshly decoded, overlaid with the caller's map |
| CliUtils.Render | src/cli/utils.ts:285-317 | an absolute path renders to text starting with `/` |
| CliUtils.TruthyIffWordIgnoringCase | src/cli/utils.ts:540-543 | a string is truthy iff it equals one of the truthy words up to ASCII case |
| CliUtils.UnsetIsNotTruthy | src/cli/utils.ts:128 | the fallback `"false"` and `""` are not truthy; `"TRUE"` and `"On"` are |
| CliUtils.FirstMatch | src/cli/utils.ts:471-477 | the first listed name that matches, or none iff no listed name matches |
| CliUtils.FindFileUpwards | src/cli/utils.ts:463-487 | the result is the match in the nearest directory on the way up, or none when no directory up to the root holds one, or the error of the first unreadable directory |
| CliUtils.SearchParent | src/cli/utils.ts:479-486 | a directory that lists no match passes its parent's outcome on |
| CliUtils.ChooseExecMethod | src/cli/utils.ts:106-165 | local iff not forced to Docker and the command exists locally; Docker iff forced or missing, and Docker is available; otherwise unavailable |
| CliUtils.LocalPreferred | src/cli/utils.ts:128-140 | with the variable unset, an existing local command is run locally |
| CliUtils.LocalExitCode | src/cli/utils.ts:421-428 | the exit code when there is one, else 128 plus the signal number, else an error |
| CliUtils.ImageTag | src/cli/utils.ts:224-257 | only `nargo` and `circomspect` are supported; an explicit tag is used as is; `auto` gives `latest` for circomspect, without a project file or with a falsy `noirVersion`; a string `noirVersion` is kept when it starts with `v` and gets `v` prefixed otherwise; a truthy non-string version is written as JavaScript converts it to text |
| CliUtils.MountDirectory | src/cli/utils.ts:285-302 | without a host root the root is mounted; with one, only a root at or under `/sindri` is remapped, anything else exits with 1 |
| CliUtils.RemapIffUnderSindri | src/cli/utils.ts:285-302 | a normal root path is remapped iff its first component is `sindri` |
| CliUtils.RelativeParts | src/cli/utils.ts:307-317 | below the base the relative path is the remaining components; elsewhere it starts with `..` |
| CliUtils.InternalCwd | src/cli/utils.ts:307-317 | a directory inside the project root maps to the same place under `/sindri/`; any other maps to `/sindri/` |
| CliUtils.AsWrittenMisplacesDotDotNames | src/cli/utils.ts:309 | with root `/p` and cwd `/p/..data`, the computation as written gives `/sindri/`, and the corrected one gives `/sindri/..data` |
| CliUtils.AsWrittenAgreesOtherwise | src/cli/utils.ts:307-317 | the two computations agree unless the first component below the root starts with `..` |
| CliUtils.ExecDockerCommand | src/cli/utils.ts:189-320 | an unreadable directory, an unsupported image or a failed pull ends the run; it succeeds iff the image tag resolves, the pull worked and the mount resolves; the image is `sindrilabs/<command>:<tag>`, the mount comes from `MountDirectory` and the working directory from the corrected `InternalCwd` |
| CliUtils.CollectTagPages | src/cli/utils.ts:516-521 | the loop over result pages collects exactly all pages' results in order |
| CliUtils.ActiveNonDev | src/cli/utils.ts:524-525 | every kept record is an active tag other than `dev` from the input, and every such record is kept |
| CliUtils.ActiveNonDevConcat | src/cli/utils.ts:524-525 | filtering a concatenation is the concatenation of the filtered parts, so order and repetitions are kept |
| CliUtils.ActiveNonDevSingle | src/cli/utils.ts:524-525 | a single record is kept iff it is active and not `dev` |
| CliUtils.Names | src/cli/utils.ts:527 | the names of the records, position by position |
| CliUtils.OrderTags | src/cli/utils.ts:523-530 | the result is the names of a permutation of the kept records |
| CliUtils.OrderTagsSorted | src/cli/utils.ts:523-530 | when `compareVersions` is a total preorder on the kept names and at most one is `latest`, the result is sorted by the source's comparator |
| CliUtils.SortIgnoresLatestTie | src/cli/utils.ts:528-530 | with at most one `latest`, sorting by the source's comparator equals sorting by its tie-free version |
| CliUtils.VersionLeTotalIsPreorder | src/cli/utils.ts:528-530 | the tie-free comparator is a total preorder when `compareVersions` is one on the names other than `latest` |
| CliUtils.SortKeepsNames | src/cli/utils.ts:526-527 | sorting the records keeps the multiset of their names |
| CliUtils.SortNamesCommute | src/cli/utils.ts:526-530 | sorting the names equals taking the names of the records sorted by name |
| CliUtils.LatestSortsLast | src/cli/utils.ts:528-530 | `latest` compares above every name, so it ends up in last position |
| Deploy.CollectTag | src/cli/deploy.ts:21-31 | the first explicit tag replaces the default `latest`; later tags are appended |
| Deploy.ExplicitTagsReplaceDefault | src/cli/deploy.ts:21-44 | after one or more `--tag` values the list is exactly those values, in order |
| Deploy.TagOptionsError | src/cli/deploy.ts:49-66 | with `--untagged`, rejected iff any tag was given; otherwise accepted iff every tag matches `^[-a-zA-Z0-9_.]+$`, naming the first bad tag |
| Deploy.FirstInvalidTag | src/cli/deploy.ts:57-65 | none iff all tags are valid; otherwise the first invalid one |
| Deploy.UntaggedRejectsAnyTag | src/cli/deploy.ts:49-55 | `--untagged` with any `--tag`, even `latest`, is rejected |
| Deploy.CheckTagOptions | src/cli/deploy.ts:49-66 | the validation loop with its early exit returns the specified error |
| Deploy.GitComponentIffSplit | src/cli/deploy.ts:128 | the `(^\|/)\.git(/\|$)` test holds iff `.git` is one of the path's components |
| Deploy.GitFilterExamples | src/cli/deploy.ts:128 | `.gitignore` is uploaded; `.git/config` and `sub/.git` are not |
| Deploy.GitIgnoreKept | src/cli/deploy.ts:128 | `.gitignore` has no `.git` component |
| Deploy.GitDirectoriesDropped | src/cli/deploy.ts:128 | `.git/config` and `sub/.git` have a `.git` component |
| Deploy.GitAtSplit | src/cli/deploy.ts:128 | a `.git` component is the first component or lies after the first `/` |
| Deploy.WithoutGit | src/cli/deploy.ts:119-129 | every kept file is a walked file outside `.git`, and every such file is kept |
| Deploy.WithoutGitConcat | src/cli/deploy.ts:119-129 | filtering a concatenation is the concatenation of the filtered parts, so order and repetitions are kept |
| Deploy.WithoutGitSingle | src/cli/deploy.ts:119-129 | a single file is kept iff it has no `.git` component |
| Deploy.UploadList | src/cli/deploy.ts:119-134 | the kept files plus `sindri.json` when it is not among them |
| Deploy.TagFields | src/cli/deploy.ts:167-173 | one empty `tags` field when untagged, else one field per tag in order |
| Deploy.CircuitIdFrom | src/cli/deploy.ts:176-195 | success iff the upload answered with a non-empty circuit id; a 401 is reported as a missing id; other failures are upload failures |
| Deploy.PollSpec | src/cli/deploy.ts:198-242 | still polling iff no answer is final; compiled or failed only after a `Ready` or `Failed` status |
| Deploy.PollStatus | src/cli/deploy.ts:198-242 | the polling loop's outcome is `PollSpec`; it fetches details at most once, and only after a final status |
| Deploy.PollSpecStep | src/cli/deploy.ts:198-242 | one polling step: a non-final answer continues with the rest |
| Deploy.DeployAction | src/cli/deploy.ts:47-243 | the upload happens iff every check passes; a run stopped by a check returns that check's exit and never polls; an upload sends the walked files outside `.git` plus `sindri.json`, as `<name>.tar.gz` with the metadata and the tag fields; a circuit id leads to polling, whose outcome decides the result |
| Deploy.UploadAndPoll | src/cli/deploy.ts:119-243 | uploads the kept files with the `files`, `meta` and tag fields in order; a missing circuit id ends the run without polling, otherwise the polling outcome decides the result |
| Deploy.DeployPreflight | src/cli/deploy.ts:47-118 | a run that passes the checks has a project file path, valid tag options and credentials; a bad tag option stops first with its error; a stopped run exits or crashes |
| Deploy.PreflightReadyIff | src/cli/deploy.ts:47-118 | the checks pass iff the tag options are valid, the directory exists, a `sindri.json` is found and parses to an object with a `name`, and credentials are set |
| Clone.ParseIdentifierSound | src/cli/clone.ts:19-27 | an accepted identifier is well formed and formats back to the input |
| Clone.ParseHeadFormats | src/cli/clone.ts:19-27 | an accepted `[team/]name` head has word-shaped groups that join back to the head |
| Clone.ParseFormat | src/cli/clone.ts:19-27 | every well-formed `[team/]name[:tag]` is accepted with the same groups |
| Clone.ColonSplitOfFormat | src/cli/clone.ts:19-27 | the first `:` of a formatted identifier separates its head from its tag |
| Clone.ParseHeadOfHeadText | src/cli/clone.ts:19-27 | the head of a well-formed identifier parses back to its team and name |
| Clone.AcceptedNameIsPlain | src/cli/clone.ts:26-27 | an accepted name is non-empty and holds no `/`, `:` or `.` |
| Clone.OutputDirectory | src/cli/clone.ts:28 | the given directory, else the bare circuit name |
| Clone.CloneAction | src/cli/clone.ts:17-80 | the tarball is requested iff the identifier parses, the output does not exist and credentials are set; extraction iff it streamed and mkdir worked; 401 and 404 map to their messages |
| Init.DefaultCircuitName | src/cli/init.ts:53 | the default name has as many UTF-16 code units as the directory name, is empty iff it is, and consists of `[-a-zA-Z0-9_]` only |
| Init.Utf16Concat | src/cli/init.ts:53 | the code-unit length of a concatenation is the sum of the lengths |
| Init.DefaultCircuitNameConcat | src/cli/init.ts:53 | the replacement works character by character, in order |
| Init.DefaultCircuitNameOfBmp | src/cli/init.ts:53 | without astral characters, each character is kept if it is in the class and becomes `-` otherwise |
| Init.AstralBecomesTwoHyphens | src/cli/init.ts:53 | an emoji becomes `--`, one hyphen per code unit |
| Init.ValidateCircuitName | src/cli/init.ts:54-62 | accepted iff non-empty and all `[-a-zA-Z0-9_]`; empty input gets its own message |
| Init.DefaultCircuitNameIsValid | src/cli/init.ts:53-62 | the default name for a non-empty directory name passes the validator |
| Init.KeepAlnum | src/cli/init.ts:81-83 | only alphanumerics remain, and the result is no longer than the input |
| Init.KeepAlnumConcat | src/cli/init.ts:81-83 | the removal distributes over concatenation, so the alphanumerics stay in order with their repetitions |
| Init.KeepAlnumSingle | src/cli/init.ts:81-83 | a single character is kept iff it is alphanumeric |
| Init.StripToLower | src/cli/init.ts:81-83 | drops exactly the longest prefix without a lowercase letter |
| Init.DefaultPackageName | src/cli/init.ts:81-83 | the alphanumerics of the circuit name with exactly the longest prefix lacking a lowercase letter removed: a suffix of them, empty or starting lowercase |
| Init.ValidatePackageName | src/cli/init.ts:84-95 | accepted iff it matches `^[a-z][a-z0-9]*$` |
| Init.DefaultPackageNameValidIff | src/cli/init.ts:81-95 | the default package name passes iff it is non-empty and has no uppercase letter |
| Init.DefaultPackageNameCanFail | src/cli/init.ts:81-95 | circuit name `aB` yields default package `aB`, which the validator rejects |
| Init.InitAction | src/cli/init.ts:26-118 | creates a missing directory, refuses a file, asks before a non-empty directory, scaffolds `common` then `gnark` with the full template context, and rejects other frameworks |
| Lint.FindRefIndex | src/cli/lint.ts:86-89 | the first schema option whose `$ref` matches, or none iff none does |
| Lint.FindRef | src/cli/lint.ts:86-89 | the first option whose `$ref` matches, as `Array.find` returns it, or none iff none matches |
| Lint.FilterRef | src/cli/lint.ts:112-116 | exactly the matching options, with order and repeats fixed by the Concat and Single lemmas |
| Lint.FilterRefConcat | src/cli/lint.ts:112-116 | the filter distributes over concatenation, so it keeps the options' order and repeats |
| Lint.FilterRefSingle | src/cli/lint.ts:112-116 | a single option is kept iff its `$ref` matches |
| Lint.HasKey | src/cli/lint.ts:84 | `key in value` throws iff the value is not an object |
| Lint.SelectSubSchema | src/cli/lint.ts:84-122 | a primitive manifest is an error; an array or a missing or falsy `circuitType` narrows nothing; circom, gnark and noir pick the first matching `anyOf` entry, or nothing when none matches; halo2 without an axiom version keeps all halo2 entries, in order |
| Lint.AxiomVersionsShareSchema | src/cli/lint.ts:95-108 | `axiom-v0.2.2` and `axiom-v0.3.0` narrow to the same schema entry |
| Lint.UnknownTypeNotNarrowed | src/cli/lint.ts:84-122 | an unknown circuit type leaves the schema un-narrowed |
| Lint.ReplaceLeadingInstance | src/cli/lint.ts:160-166 | a leading `instance` becomes `sindri.json` |
| Lint.DotsToColons | src/cli/lint.ts:160-166 | every `.` becomes `:`, nothing else changes |
| Lint.ErrorPrefixAsWritten | src/cli/lint.ts:160-163 | a path starting with `instance` is reported under `sindri:json` |
| Lint.ErrorPrefix | src/cli/lint.ts:159-169 | a path starting with `instance` is reported under `sindri.json` followed by the rest with dots as colons |
| Lint.AsWrittenManglesFileName | src/cli/lint.ts:160-163 | every manifest-level error is prefixed `sindri:json`, where `sindri.json` is meant |
| Lint.PrefixExample | src/cli/lint.ts:160-163 | a missing `name` is reported as `sindri:json:name`; intended: `sindri.json:name` |
| Lint.PrefixExampleAsWritten | src/cli/lint.ts:160-163 | as written, the path `instance.name` is reported as `sindri:json:name` |
| Lint.PrefixExampleIntended | src/cli/lint.ts:160-163 | as intended, the path `instance.name` is reported as `sindri.json:name` |
| Lint.ReportErrors | src/cli/lint.ts:159-169 | one line and one counted error per validation error, in order, each with the corrected `sindri.json` prefix |
| Lint.LogEach | src/cli/lint.ts:159-169 | the logging loop writes one formatted line per item, in order, and counts every item |
| Lint.LintAction | src/cli/lint.ts:28-195 | a missing schema, directory, project file or unparsable file aborts with its reason; after those, the run lints iff the manifest is an object or array, and crashes otherwise; the error lines, error count and warnings are those of the validation, and the run fails iff the error count is positive |
| Lint.LintPreflight | src/cli/lint.ts:28-78 | the checks pass iff the schema is loaded, the directory exists, and a `sindri.json` is found upwards and parses; then the path and the parsed value are those |
| Lint.LintPreflightStops | src/cli/lint.ts:28-55 | a missing schema, a missing directory and a missing project file each stop with their own reason |
| Client.FirstTruthy | src/lib/client.ts:88-99 | JavaScript's `a \|\| b \|\| ... \|\| last` over optional strings |
| Client.ResolveBase | src/lib/client.ts:83-101 | the explicit base URL wins; in the browser, else the public default; in Node, else the current, environment, stored and default in order |
| Client.ResolveToken | src/lib/client.ts:83-101 | in the browser, the explicit key; in Node, the explicit key, else the current token, else the environment or stored key |
| Client.ApiKeyOf | src/lib/client.ts:54-59 | the getter gives the token only when it is a non-empty string |
| Client.CurrentBaseShadowsFallbacks | src/lib/client.ts:88-99 | once a base URL is set, the environment and config no longer affect it |
| Client.AuthorizeIdempotent | src/lib/client.ts:83-101 | authorizing twice with the same inputs gives what authorizing once gives |
| Client.ExplicitKeyReadBack | src/lib/client.ts:54-101 | an explicit non-empty key is what the getter reads back |
| Client.Client.constructor | src/lib/client.ts:47-49 | construction authorizes once with the given options |
| Client.Client.Authorize | src/lib/client.ts:83-102 | the shared settings are updated to the resolved base and token; the result is whether the token is truthy |
| OpenApi.OpenApiConfig.constructor | src/lib/api/core/OpenAPI.ts:28-38 | the initial settings are the public server and no token |
| ConfigFormat.ParseAuth | src/lib/config.ts:18-31 | succeeds iff every schema field is present with its kind; the result holds exactly those fields, with their values |
| ConfigFormat.ParseValidAuth | src/lib/config.ts:18-31 | validating a stored record gives it back unchanged |
| ConfigFormat.EntryMap | src/lib/config.ts:37-60 | the keys are exactly the object's keys |
| ConfigFormat.ParseConfig | src/lib/config.ts:18-35 | results are valid configurations; a non-object is rejected; a missing or null `auth` gives the default; any other non-object `auth` is rejected; an object `auth` is accepted iff it has every schema field with its kind, and is then kept with exactly those fields and their values |
| ConfigFormat.LoadConfig | src/lib/config.ts:37-60 | always a valid configuration; a missing or unparsable file gives `{auth: null}` |
| ConfigFormat.MergedAuth | src/lib/config.ts:87-107 | left out, the stored `auth` is kept; `null` clears it; fields are merged over the stored record |
| ConfigFormat.UpdatedConfig | src/lib/config.ts:87-107 | an accepted update is a valid configuration |
| ConfigFormat.ClearAuthSucceeds | src/cli/config.ts:62-78 | logging out always succeeds and clears the credentials |
| ConfigFormat.EmptyUpdateKeeps | src/lib/config.ts:87-107 | an update that leaves `auth` out keeps a valid configuration |
| ConfigFormat.MergeAcceptedIff | src/lib/config.ts:87-107 | a merge is accepted iff the merged record has every schema field with its kind |
| ConfigFormat.MissingFieldRejected | src/lib/config.ts:87-107 | without stored credentials, a merge lacking a schema field is rejected |
| LibConfig.Config.constructor | src/lib/config.ts:66-77 | the instance holds the loaded configuration and has written nothing |
| LibConfig.Config.Update | src/lib/config.ts:87-107 | a rejected update changes nothing; an accepted one is stored and written once |
| LibConfig.ConfigRegistry.constructor | src/lib/config.ts:64 | no instance exists yet |
| LibConfig.ConfigRegistry.Construct | src/lib/config.ts:66-77 | the first construction loads the file and copies stored credentials into the API settings; later ones return that instance and change nothing |
| LibConfig.StoredAuthShape | src/lib/config.ts:18-31 | stored credentials have exactly the six fields, with a URL base and a numeric team id |
| CliConfig.Config.constructor | src/cli/config.ts:32-56 | the instance holds the loaded file, or `{auth: null}` |
| CliConfig.Config.Update | src/cli/config.ts:62-78 | a rejected update changes nothing; an accepted one is stored and written once |
| CliConfig.LoginUpdateRejectedWithoutStoredAuth | src/cli/login.ts:60 | the login update, which lacks `baseUrl`, is rejected when nothing is stored |
| CliConfig.LoginUpdateAcceptedWithStoredAuth | src/cli/login.ts:60 | with valid credentials stored, the login update is accepted and keeps the stored base URL |
| CliConfig.LoginMergeComplete | src/cli/login.ts:60 | the login fields merged into valid stored credentials leave every schema field present, of its kind, with the stored base URL |
| CliConfig.LoginWithBaseUrlAccepted | src/cli/login.ts:60 | a login update that includes the base URL is accepted whatever was stored, a first login included, and the stored credentials become exactly the four fields sent |
| CliConfig.LoginFieldsCover | src/cli/config.ts:15-26 | a record holding the four login fields has every schema field, of its kind |
| CliConfig.SchemaKeysAreLoginKeys | src/cli/config.ts:15-26 | the schema's field names are exactly the four login fields |
| Project.FindProjectName | src/cli/project.ts:30-74 | a missing directory fails; the name is found iff the directory exists and the nearest `sindri.json` parses to an object with a string `name`, and then it is that `name` |
| Project.FirstFailure | src/cli/project.ts:150-164 | the first name whose deletion fails, or none iff none fails |
| Project.FailureIsLastCall | src/cli/project.ts:150-164 | the run ends with a failure iff the last call failed; all earlier calls succeeded |
| Project.StopsAtFirstEmptyPage | src/cli/project.ts:150-164 | after clean pages, the loop ends at the first empty page having deleted exactly their names |
| Project.DeletePage | src/cli/project.ts:159-162 | deletes in order, stopping just after the first failure |
| Project.PageStep | src/cli/project.ts:150-164 | one page of the loop matches the specification |
| Project.PageOutcome | src/cli/project.ts:150-164 | after a page is deleted, a failure ends the loop with the calls so far, otherwise the loop continues with the next page |
| Project.StopStep | src/cli/project.ts:150-164 | a failed listing, an empty page or the end of the answers ends the loop with no further call |
| Project.DeleteAll | src/cli/project.ts:150-164 | the `--all` loop makes the specified calls; the count is the successful deletions |
| Project.SingleDeletionReportedAsZero | src/cli/project.ts:146-149 | as written, the count reported after one named deletion is 0 |
| Project.DeleteAction | src/cli/project.ts:125-167 | credentials are required; no deletion without confirmation or `--force`; otherwise exactly one call for the named project or the project file's name, or the `--all` loop's calls once the team is known; a failure exits 1 with its name; a success reports the number of deletions made in either mode, while the source as written reports 0 for a single one |
| Project.AllOutcome | src/cli/project.ts:150-166 | the `--all` run succeeds iff it ends at an empty page, and then reports every call made |
| Project.SingleOutcome | src/cli/project.ts:147-149 | a single deletion succeeds with count 1 iff it does not fail, and exits 1 otherwise |
| Proof.TagOrDefault | src/cli/proof.ts:27 | the tag defaults to `latest` |
| Proof.FirstExistingIndex | src/cli/proof.ts:99-105 | the first default input file that exists, or none iff none does |
| Proof.FirstExisting | src/cli/proof.ts:99-105 | an existing listed file, or none iff none exists |
| Proof.FirstExistingAt | src/cli/proof.ts:99-105 | the file at the first existing position is the one chosen |
| Proof.InputSourceSpec | src/cli/proof.ts:85-113 | `--input` when that file exists; else stdin when it is not a TTY; else the first existing default file; none otherwise |
| Proof.ReadProofInput | src/cli/proof.ts:85-113 | reads the input from the specified source |
| Proof.ProofAction | src/cli/proof.ts:28-139 | a failed check returns its exit and reads nothing; once login, directory and `sindri.json` with a `name` pass, the input is read, and the request goes to `name:tag` iff an input source supplies a non-empty input, else the run exits with `NoInput`; the answer decides the result |
| Proof.ProofPreflight | src/cli/proof.ts:28-83 | the checks pass iff credentials are set, the directory exists and the nearest `sindri.json` parses to an object with a `name`, which is then the circuit name |
| CliIndex.ProgramVersion | src/cli/index.ts:21 | the package version, else `unknown` |
| CliIndex.SelectLogLevel | src/cli/index.ts:36-51 | both flags are refused; `--debug` gives trace, `--quiet` silent, neither info |
| CliIndex.LevelsDistinguishFlags | src/cli/index.ts:45-51 | each accepted flag combination gives a different level |
| CliIndex.Logger.constructor | src/cli/index.ts:36-57 | the logger starts at the given level |
| CliIndex.Logger.PreAction | src/cli/index.ts:36-57 | exits with 1 iff both flags are set and keeps the level then; otherwise sets the selected level |
| FormMatch.PartSorter | test/utils/matchFormPayloads.ts:44-55 | named parts first, then by name, then by data, with the result in -1..1 |
| FormMatch.PartSorterAntisymmetric | test/utils/matchFormPayloads.ts:44-55 | swapping the arguments negates the comparison |
| FormMatch.PartSorterTransitive | test/utils/matchFormPayloads.ts:44-55 | the order is transitive |
| FormMatch.PartOrderIsTotalPreorder | test/utils/matchFormPayloads.ts:88-94 | the order is a total preorder, so sorting by it gives a sorted list |
| FormMatch.SortParts | test/utils/matchFormPayloads.ts:88-94 | sorting permutes the parts |
| FormMatch.AsWrittenIgnoresTarballContents | test/utils/matchFormPayloads.ts:122 | as written, two tarball parts with equal metadata agree whatever their contents |
| FormMatch.CorrectedOnlyRejectsMore | test/utils/matchFormPayloads.ts:116-129 | the corrected check accepts no pair the check as written rejects; they differ only on tarballs whose contents differ |
| FormMatch.TarballMismatchExample | test/utils/matchFormPayloads.ts:116-125 | `c.tgz` parts whose archives differ agree as written and disagree as intended |
| FormMatch.NonTarballNeedsIdenticalBytes | test/utils/matchFormPayloads.ts:126-129 | other parts with equal metadata agree iff their bytes are equal |
| FormMatch.BodiesMatchItself | test/utils/matchFormPayloads.ts:59-135 | a body matches itself |
| FormMatch.CheckPart | test/utils/matchFormPayloads.ts:100-131 | one loop step decides the intended agreement of two parts |
| FormMatch.CompareSorted | test/utils/matchFormPayloads.ts:97-131 | equal length and pairwise agreement under the corrected tarball check, with an early exit |
| FormMatch.FilteringRequestBody | test/utils/matchFormPayloads.ts:59-135 | a missing or unsplittable body is returned as is; otherwise the recorded body iff both sorted bodies agree under the corrected tarball check |
| Halo2Chip.Sub | templates/halo2/pse-v0.3.0/src/chip.rs:90 | the difference is known iff both operands are, and is their difference |
| Halo2Chip.GateValue | templates/halo2/pse-v0.3.0/src/chip.rs:44-51 | the gate polynomial's value is a field element |
| Halo2Chip.DiffGate | templates/halo2/pse-v0.3.0/src/chip.rs:44-51 | the gate reads `a0` and `a1` at the current row and `a0` at the next, under the selector |
| Halo2Chip.DiffGateSemantics | templates/halo2/pse-v0.3.0/src/chip.rs:44-51 | off, the gate holds; on, it holds iff the output equals `lhs - rhs` mod p |
| Halo2Chip.ConstraintSystem.constructor | templates/halo2/pse-v0.3.0/src/chip.rs:31-59 | an empty constraint system |
| Halo2Chip.ConstraintSystem.AdviceColumn | templates/halo2/pse/src/circuit.rs:27-33 | a fresh advice column; nothing else changes |
| Halo2Chip.ConstraintSystem.InstanceColumn | templates/halo2/pse/src/circuit.rs:27-33 | a fresh instance column; nothing else changes |
| Halo2Chip.ConstraintSystem.NewSelector | templates/halo2/pse-v0.3.0/src/chip.rs:39 | a fresh selector; nothing else changes |
| Halo2Chip.ConstraintSystem.EnableEquality | templates/halo2/pse-v0.3.0/src/chip.rs:40-42 | the column joins the equality set; nothing else changes |
| Halo2Chip.ConstraintSystem.CreateGate | templates/halo2/pse-v0.3.0/src/chip.rs:44-51 | the gate is appended; nothing else changes |
| Halo2Chip.Layouter.constructor | templates/halo2/pse/src/circuit.rs:35-47 | an empty layout with the given number of usable rows |
| Halo2Chip.Layouter.BeginRegion | templates/halo2/pse-v0.3.0/src/chip.rs:67-69 | a region starts at the next free row |
| Halo2Chip.Layouter.EndRegion | templates/halo2/pse-v0.3.0/src/chip.rs:65-74 | the next region starts after the rows used |
| Halo2Chip.Layouter.AssignAdvice | templates/halo2/pse-v0.3.0/src/chip.rs:70-71 | succeeds iff the row is usable, then writes that one cell |
| Halo2Chip.Layouter.EnableSelector | templates/halo2/pse-v0.3.0/src/chip.rs:87 | succeeds iff the row is usable, then enables the selector there |
| Halo2Chip.Layouter.CopyAdvice | templates/halo2/pse-v0.3.0/src/chip.rs:88-89 | succeeds iff the row is usable, then writes the value and records the copy constraint |
| Halo2Chip.Layouter.ConstrainInstance | templates/halo2/pse-v0.3.0/src/chip.rs:103-104 | succeeds iff the row is usable, then records the copy to the instance cell |
| Halo2Chip.Configure | templates/halo2/pse-v0.3.0/src/chip.rs:31-59 | one new selector, equality on the three columns, one `diff` gate, and the config of these |
| Halo2Chip.AssignOperands | templates/halo2/pse-v0.3.0/src/chip.rs:61-75 | succeeds iff one row is free, writing `x` in `a0` and `y` in `a1` |
| Halo2Chip.Diff | templates/halo2/pse-v0.3.0/src/chip.rs:77-94 | succeeds iff two rows are free; enables the selector, copies the operands and writes `x - y` below |
| Halo2Chip.ExposePublic | templates/halo2/pse-v0.3.0/src/chip.rs:96-106 | constrains `y` to public row 0 and `x - y` to public row 1 |
| Halo2Chip.DiffRowSatisfiesGate | templates/halo2/pse-v0.3.0/src/chip.rs:44-51 | rows written by `diff` satisfy the gate |
| Halo2Circuit.WithoutWitnesses | templates/halo2/pse/src/circuit.rs:23-25 | both values unknown |
| Halo2Circuit.KeygenCircuit | templates/halo2/pse/src/circuit.rs:69-71 | both values unknown |
| Halo2Circuit.KeygenIsWithoutWitnesses | templates/halo2/pse/src/circuit.rs:13-25 | the key-generation circuit is the default circuit without witnesses |
| Halo2Circuit.CircuitConfigure | templates/halo2/pse/src/circuit.rs:27-33 | two distinct advice columns, one instance column, and the chip's configuration of them |
| Halo2Circuit.Synthesize | templates/halo2/pse/src/circuit.rs:35-47 | succeeds iff three rows are free; from an empty layout, it produces exactly the fresh layout |
| Halo2Circuit.LayoutShapeIndependentOfWitness | templates/halo2/pse/src/circuit.rs:35-47 | which cells are written, enabled and copied does not depend on the witness |
| Halo2Circuit.SatisfiedIff | templates/halo2/pse/src/circuit.rs:35-47 | the layout is satisfied iff public row 0 is `y` and public row 1 is `x - y` mod p |
| Halo2Circuit.FromJsonAsWritten | templates/halo2/pse/src/circuit.rs:53-67 | public inputs `[y, x == y ? 0 : 1]` |
| Halo2Circuit.FromJsonAgreesIff | templates/halo2/pse/src/circuit.rs:53-67 | as written, the honest witness satisfies the circuit iff `x == y` or `x - y` is 1 mod p |
| Halo2Circuit.FromJsonRejectsHonestWitness | templates/halo2/pse/src/circuit.rs:60-66 | for `x = 3`, `y = 1` (p > 2) the honest witness is rejected as written |
| Halo2Circuit.FromJson | templates/halo2/pse/src/circuit.rs:53-67 | public inputs `[y, x - y mod p]`, whose second entry is 0 iff `x` and `y` are equal mod p |
| Halo2Circuit.FromJsonAlwaysAgrees | templates/halo2/pse/src/circuit.rs:53-67 | the corrected public inputs are satisfied by the honest witness for every `x`, `y` |

## Left out

- The client's `baseUrl` getter and its `logLevel` getter and setter (src/lib/client.ts:64-81): they only forward to the shared settings and the logger.
- The `console.log` at src/cli/config.ts:13: output only.
- Deploy: creating the tarball, the `walk` of the directory (its result is an input), and the polling delay. The server's answers form a finite sequence, so the model polls at most that many times.
- I/O, Docker, the network, the clock and the terminal. Each enters as a parameter or an oracle: `existsSync` is membership in the snapshot, and `readdirSync` failure is an entry of the snapshot.
- These libraries are oracles: `JSON.parse`, zod's URL check, lodash's merge (its effect on the two known keys is written out), the JSON Schema validator, `compareVersions`, `localeCompare`, the tarball parser, and the multipart boundary detection and decoding.
- Template rendering (`scaffoldDirectory`), prompts, and the optional `git init` of `init`.
- `Promise.all` concurrency and the order of asynchronous log lines.
- The change of working directory at src/cli/lint.ts:59 and src/cli/proof.ts:58: paths are absolute throughout.
- String order: JavaScript compares UTF-16 code units, while the model compares code points. The two differ only outside the Basic Multilingual Plane.
- The in-place `Array.prototype.sort` calls are modelled as a stable insertion sort on sequences, as `Array.prototype.sort` is stable. The model does not describe how a comparator that is not a total preorder is handled beyond that insertion sort.
- CliUtils.IsTruthy: lower-cases ASCII letters only. JavaScript's `toLowerCase` covers all of Unicode.
- CliUtils.LatestSortsLast: assumes at most one `latest` tag in the registry's answer.
- Lint.ReportErrors: logs each error under the corrected `sindri.json` prefix. The source as written logs `sindri:json`, which Lint.ErrorPrefixAsWritten and Lint.AsWrittenManglesFileName state.
- Lint.LintAction: its error lines are those of Lint.ReportErrors, with the corrected prefix; everything else is as written.
- Project.DeleteAction: reports the number of deletions made in both modes. The source as written reports 0 after a single named deletion; its own ensures states that count through Project.ReportedCountAsWritten.
- FormMatch.CheckPart: compares a tarball part's parsed contents with the recorded part's. As written, any two tarball parts with the same metadata agree (FormMatch.PartAgreesAsWritten); FormMatch.CorrectedOnlyRejectsMore bounds the difference.
- FormMatch.CompareSorted: uses the corrected tarball check of FormMatch.CheckPart.
- FormMatch.FilteringRequestBody: uses the corrected tarball check of FormMatch.CheckPart.
- CliUtils.ExecDockerCommand: computes the working directory with the corrected CliUtils.InternalCwd. As written, a first component below the root that starts with `..` maps to `/sindri/`; CliUtils.AsWrittenAgreesOtherwise shows the two agree on every other directory.
- CliUtils.OrderTags: sortedness (CliUtils.OrderTagsSorted) is proved only when `compareVersions` is a total preorder on the kept names and at most one of them is `latest`.
- CliUtils.MountDirectory: inserts the host root literally. `String.prototype.replace` would expand `$` patterns such as `$&` in it.
- Deploy.DeployAction, Lint.LintAction, Project.FindProjectName, Proof.ProofAction: a directory that cannot be listed during the upward search ends the run with the "no `sindri.json`" exit. In the source, `readdirSync` throws and the exception escapes the command.
- Halo2Circuit.FromJson: takes `X` and `Y` as already parsed `u64` values. The source's `unwrap` calls panic on a missing file, malformed JSON or a missing or non-integer field. It also publishes the corrected second public input `x - y`, which the circuit constrains, in place of the source's 0/1 flag; Halo2Circuit.FromJsonAsWritten models the source as written.
- FormMatch.FilteringRequestBody: does not claim that the result ignores the order of parts. Parts that tie on name and data but differ in filename or type keep their input order, so reordering such parts can change the answer.
- Halo2: the prover, the verifier, and key generation. The mock prover's checking is reduced to `Satisfied` (gates and copy constraints mod p).
- Halo2: the `SimpleFloorPlanner`'s column-wise region placement is reduced to placing regions one after another.
- Halo2: the field is an arbitrary modulus `p`, not the BN254 scalar field.
- The gnark template and the other circuit templates.

## Findings

| source | as written | input that shows it | evidently intended | confidence | as-written member | corrected member |
|---|---|---|---|---|---|---|
| src/cli/utils.ts:309 | the test for "cwd outside the root" is whether the relative path starts with `..`, which also matches a first component named like `..data` | root `/p`, cwd `/p/..data` | map to `/sindri/..data` | medium, not executed | CliUtils.AsWrittenMisplacesDotDotNames | CliUtils.InternalCwd |
| src/cli/lint.ts:160-163 | dots are replaced after `instance` becomes `sindri.json`, so the file name itself becomes `sindri:json` | a manifest without `name`: `instance.name` | `sindri.json:name` | high, not executed | Lint.PrefixExample | Lint.ErrorPrefix |
| src/cli/project.ts:146-149 | the summary count is incremented only in the `--all` loop | `sindri project delete foo` | "Successfully deleted 1 project" | high, not executed | Project.SingleDeletionReportedAsZero | Project.DeleteAction |
| test/utils/matchFormPayloads.ts:122 | the tarball comparison parses the request's part twice instead of the request's and the recording's | two `c.tgz` parts with the same metadata and different archives | compare the request's archive with the recorded archive | high, not executed | FormMatch.TarballMismatchExample | FormMatch.CompareSorted |
| templates/halo2/pse/src/circuit.rs:60-66 | the second public input is the flag `x == y ? 0 : 1`, but the circuit constrains it to `x - y` | `X = 3`, `Y = 1` | public input `x - y`, so every honest witness satisfies the circuit | medium, not executed | Halo2Circuit.FromJsonRejectsHonestWitness | Halo2Circuit.FromJsonAlwaysAgrees |
| src/cli/login.ts:60 | the login stores `apiKey`, `teamId` and `teamSlug` but no `baseUrl`, which the schema at src/cli/config.ts:15-26 requires, so with nothing stored the update is rejected | a first `sindri login`, with no credentials stored | store the base URL with the other three fields | high, not executed | CliConfig.LoginUpdateRejectedWithoutStoredAuth | CliConfig.LoginWithBaseUrlAccepted |
