/**
 * The `clone` command of src/cli/clone.ts: parsing a circuit identifier of the
 * form `[team/]name[:tag]`, choosing the output directory, and the guards that
 * run before the circuit tarball is requested. Creating the directory and
 * extracting the tarball are not modelled.
 */
module Clone {
  import opened Wrappers
  import opened Text

  /** The three groups of the identifier regex; `None` for a group that did not take part. */
  datatype CircuitIdentifier = CircuitIdentifier(team: Option<string>, name: string, tag: Option<string>)

  /** Groups that the regex `^(?:([-a-zA-Z0-9_]+)\/)?([-a-zA-Z0-9_]+)(?::([-a-zA-Z0-9_.]+))?$` can produce. */
  predicate WellFormed(id: CircuitIdentifier) {
    (id.team.Some? ==> IsWord(id.team.value)) && IsWord(id.name) && (id.tag.Some? ==> IsTag(id.tag.value))
  }

  /** The text an identifier stands for. */
  function Format(id: CircuitIdentifier): string {
    HeadText(id) + (if id.tag.Some? then ":" + id.tag.value else "")
  }

  /** The text before the optional `:tag`. */
  function HeadText(id: CircuitIdentifier): string {
    (if id.team.Some? then id.team.value + "/" else "") + id.name
  }

  /** The part before the optional `:tag`, split into the optional team and the name. */
  function ParseHead(head: string): Option<(Option<string>, string)> {
    if '/' in head then
      var j := IndexOf(head, '/');
      if IsWord(head[..j]) && IsWord(head[j + 1..]) then Some((Some(head[..j]), head[j + 1..])) else None
    else if IsWord(head) then Some((None, head))
    else None
  }

  /**
   * The regex match: the tag follows the first `:` (neither team nor name may
   * hold a `:`), the team precedes the first `/` (the name may not hold one).
   */
  function ParseIdentifier(s: string): Option<CircuitIdentifier> {
    ParseParts(HeadOf(s), TagOf(s))
  }

  /** The text before the first `:`, or all of it. */
  function HeadOf(s: string): string {
    if ':' in s then s[..IndexOf(s, ':')] else s
  }

  /** The text after the first `:`, if there is one. */
  function TagOf(s: string): Option<string> {
    if ':' in s then Some(s[IndexOf(s, ':') + 1..]) else None
  }

  /** The groups, once the head and the optional tag are known. */
  function ParseParts(head: string, tag: Option<string>): Option<CircuitIdentifier> {
    var parsed := ParseHead(head);
    if parsed.None? || (tag.Some? && !IsTag(tag.value)) then None
    else Some(CircuitIdentifier(parsed.value.0, parsed.value.1, tag))
  }

  /** An accepted identifier is well formed and formats back to the input. */
  lemma ParseIdentifierSound(s: string)
    ensures var r := ParseIdentifier(s);
      r.Some? ==> WellFormed(r.value) && Format(r.value) == s
  {
    if ParseIdentifier(s).Some? {
      ParseHeadFormats(HeadOf(s));
      SplitAtFirst(s, ':');
    }
  }

  /** An accepted head is the team, a `/` and the name again. */
  lemma ParseHeadFormats(head: string)
    requires ParseHead(head).Some?
    ensures var (team, name) := ParseHead(head).value;
      (team.Some? ==> IsWord(team.value)) && IsWord(name) &&
      (if team.Some? then team.value + "/" else "") + name == head
  {
    if '/' in head {
      SplitAtFirst(head, '/');
      var j := IndexOf(head, '/');
      assert (head[..j] + "/") + head[j + 1..] == head[..j] + ("/" + head[j + 1..]);
    }
  }

  /** A string is what precedes the first `c`, the `c` itself, and what follows. */
  lemma SplitAtFirst(s: string, c: char)
    ensures c in s ==> s == s[..IndexOf(s, c)] + ([c] + s[IndexOf(s, c) + 1..])
  {
    if c in s {
      var k := IndexOf(s, c);
      assert s == s[..k] + ([s[k]] + s[k + 1..]);
    }
  }

  lemma WordHasNoSeparators(w: string)
    requires IsWord(w)
    ensures '/' !in w && ':' !in w && '.' !in w
  {
    forall i | 0 <= i < |w| ensures w[i] != '/' && w[i] != ':' && w[i] != '.' {
      assert IsWordChar(w[i]);
    }
  }

  lemma TagHasNoSeparators(t: string)
    requires IsTag(t)
    ensures '/' !in t && ':' !in t
  {
    forall i | 0 <= i < |t| ensures t[i] != '/' && t[i] != ':' {
      assert IsTagChar(t[i]);
    }
  }

  /** Every well-formed identifier is accepted, with the same groups back. */
  lemma ParseFormat(id: CircuitIdentifier)
    requires WellFormed(id)
    ensures ParseIdentifier(Format(id)) == Some(id)
  {
    ColonSplitOfFormat(id);
    ParseHeadOfHeadText(id);
  }

  /** The first `:` of a formatted identifier, if any, is the one before the tag. */
  lemma ColonSplitOfFormat(id: CircuitIdentifier)
    requires WellFormed(id)
    ensures HeadOf(Format(id)) == HeadText(id) && TagOf(Format(id)) == id.tag
  {
    var s := Format(id);
    var head := HeadText(id);
    WordHasNoSeparators(id.name);
    if id.team.Some? { WordHasNoSeparators(id.team.value); }
    assert ':' !in head;
    if id.tag.Some? {
      TagHasNoSeparators(id.tag.value);
      assert s[..|head|] == head;
      IndexOfAt(s, ':', |head|);
      assert s[|head| + 1..] == id.tag.value;
    } else {
      assert s == head;
    }
  }

  /** The head of a well-formed identifier parses back to its team and name. */
  lemma ParseHeadOfHeadText(id: CircuitIdentifier)
    requires WellFormed(id)
    ensures ParseHead(HeadText(id)) == Some((id.team, id.name))
  {
    var head := HeadText(id);
    WordHasNoSeparators(id.name);
    if id.team.Some? {
      var t := id.team.value;
      WordHasNoSeparators(t);
      assert head[|t|] == '/';
      assert head[..|t|] == t;
      IndexOfAt(head, '/', |t|);
      assert head[|t| + 1..] == id.name;
    } else {
      assert head == id.name;
    }
  }

  /** An accepted identifier's name is non-empty and holds no `/`, `:` or `.`. */
  lemma AcceptedNameIsPlain(s: string)
    requires ParseIdentifier(s).Some?
    ensures var name := ParseIdentifier(s).value.name;
      name != [] && '/' !in name && ':' !in name && '.' !in name
  {
    ParseIdentifierSound(s);
    WordHasNoSeparators(ParseIdentifier(s).value.name);
  }

  /** The output directory: the given one, else the circuit name alone (no team, no tag). */
  function OutputDirectory(directory: Option<string>, id: CircuitIdentifier): (r: string)
    ensures directory.Some? ==> r == directory.value
    ensures directory.None? ==> r == id.name
  {
    directory.GetOr(id.name)
  }

  /** What the tarball request gives: a stream, or an API error status, or another failure. */
  datatype DownloadAnswer = Stream | ApiFailure(status: int) | OtherFailure

  datatype CloneExit = InvalidIdentifier | DirectoryExists | NotLoggedIn | BadCredentials | NotFound | UnknownError | MkdirFailed

  datatype CloneResult = Exit1(reason: CloneExit) | Extract(outputDirectory: string)

  /**
   * The action up to extraction. `pathExists` says which (resolved) paths
   * exist; `mkdirSucceeds` is whether creating the output directory works.
   * Returns whether the tarball was requested.
   */
  method CloneAction(circuit: string, directory: Option<string>, pathExists: string -> bool,
                     apiKey: Option<string>, baseUrl: Option<string>, answer: DownloadAnswer,
                     mkdirSucceeds: bool)
    returns (result: CloneResult, requested: bool)
    ensures ParseIdentifier(circuit).None? ==> result == Exit1(InvalidIdentifier) && !requested
    ensures requested <==>
      ParseIdentifier(circuit).Some? &&
      !pathExists(OutputDirectory(directory, ParseIdentifier(circuit).value)) &&
      apiKey.Some? && apiKey.value != [] && baseUrl.Some? && baseUrl.value != []
    ensures result.Extract? <==> requested && answer.Stream? && mkdirSucceeds
    ensures result.Extract? ==> result.outputDirectory == OutputDirectory(directory, ParseIdentifier(circuit).value)
    ensures requested && !answer.Stream? ==> result.Exit1?
    ensures answer == ApiFailure(401) && requested ==> result == Exit1(BadCredentials)
    ensures answer == ApiFailure(404) && requested ==> result == Exit1(NotFound)
  {
    requested := false;
    var id := ParseIdentifier(circuit);
    if id.None? {
      return Exit1(InvalidIdentifier), requested;
    }
    var output := OutputDirectory(directory, id.value);
    if pathExists(output) {
      return Exit1(DirectoryExists), requested;
    }
    if apiKey.None? || apiKey.value == [] || baseUrl.None? || baseUrl.value == [] {
      return Exit1(NotLoggedIn), requested;
    }
    requested := true;
    match answer
    case Stream =>
      if mkdirSucceeds {
        result := Extract(output);
      } else {
        result := Exit1(MkdirFailed);
      }
    case ApiFailure(status) =>
      if status == 401 {
        result := Exit1(BadCredentials);
      } else if status == 404 {
        result := Exit1(NotFound);
      } else {
        result := Exit1(UnknownError);
      }
    case OtherFailure => result := Exit1(UnknownError);
  }
}
