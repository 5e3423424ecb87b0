/**
 * The multipart body matcher of test/utils/matchFormPayloads.ts, which lets
 * recorded HTTP fixtures match a live request whose form parts come in another
 * order: the part comparator, and the rule that decides whether the live body
 * is replaced by the recorded one. Finding the boundaries, decoding the
 * bodies and parsing multipart data and tarballs are foreign and are parameters.
 */
module FormMatch {
  import opened Wrappers
  import opened Text

  type Byte = b: int | 0 <= b < 256

  /** A parsed form part: `filename` and `name` may be missing. */
  datatype Part = Part(filename: Option<string>, name: Option<string>, contentType: string, data: seq<Byte>)

  function CharKey(c: char): int { c as int }
  function ByteKey(b: Byte): int { b }

  /**
   * `partSorter`: parts with a name come before nameless ones, named parts are
   * ordered by name, and ties (equal names, or both nameless) by their bytes.
   */
  function PartSorter(a: Part, b: Part): (r: int)
    ensures -1 <= r <= 1
    ensures a.name.Some? && b.name.None? ==> r == -1
    ensures a.name.None? && b.name.Some? ==> r == 1
    ensures a.name.Some? && b.name.Some? && a.name != b.name ==>
      r == LexCompare(a.name.value, b.name.value, CharKey) && r != 0
    ensures a.name == b.name ==> r == LexCompare(a.data, b.data, ByteKey)
  {
    if a.name.Some? || b.name.Some? then
      if a.name.None? then 1
      else if b.name.None? then -1
      else
        var c := LexCompare(a.name.value, b.name.value, CharKey);
        LexZeroIsEqual(a.name.value, b.name.value, CharKey);
        if c != 0 then c else LexCompare(a.data, b.data, ByteKey)
    else LexCompare(a.data, b.data, ByteKey)
  }

  /** The order `sort(partSorter)` produces. */
  predicate PartLe(a: Part, b: Part) {
    PartSorter(a, b) <= 0
  }

  lemma PartSorterAntisymmetric(a: Part, b: Part)
    ensures PartSorter(a, b) == -PartSorter(b, a)
  {
    if a.name.Some? && b.name.Some? {
      LexAntisymmetric(a.name.value, b.name.value, CharKey);
    }
    LexAntisymmetric(a.data, b.data, ByteKey);
  }

  lemma PartSorterTransitive(a: Part, b: Part, c: Part)
    requires PartLe(a, b) && PartLe(b, c)
    ensures PartLe(a, c)
  {
    if a.name.Some? && b.name.Some? && c.name.Some? {
      var x, y, z := a.name.value, b.name.value, c.name.value;
      LexZeroIsEqual(x, y, CharKey);
      LexZeroIsEqual(y, z, CharKey);
      LexZeroIsEqual(x, z, CharKey);
      LexTransitive(x, y, z, CharKey);
      if x == z {
        LexAntisymmetric(x, y, CharKey);
        assert x == y;
        LexTransitive(a.data, b.data, c.data, ByteKey);
      }
    } else if a.name.None? && b.name.None? && c.name.None? {
      LexTransitive(a.data, b.data, c.data, ByteKey);
    }
  }

  /** The comparator is consistent, so the sort is well defined and its result sorted. */
  lemma PartOrderIsTotalPreorder(parts: seq<Part>)
    ensures TotalPreorderOn(parts, (a, b) => PartLe(a, b))
    ensures SortedBy(SortBy(parts, (a, b) => PartLe(a, b)), (a, b) => PartLe(a, b))
  {
    forall x, y | x in parts && y in parts ensures PartLe(x, y) || PartLe(y, x) {
      PartSorterAntisymmetric(x, y);
    }
    forall x, y, z | x in parts && y in parts && z in parts && PartLe(x, y) && PartLe(y, z)
      ensures PartLe(x, z)
    {
      PartSorterTransitive(x, y, z);
    }
    SortBySorted(parts, (a, b) => PartLe(a, b));
  }

  function SortParts(parts: seq<Part>): (r: seq<Part>)
    ensures multiset(r) == multiset(parts)
  {
    SortBy(parts, (a, b) => PartLe(a, b))
  }

  /** A case-insensitive suffix test. */
  predicate EndsWithIgnoringCase(s: string, suffix: string) {
    |suffix| <= |s| && Lower(s[|s| - |suffix|..]) == suffix
  }

  /** `part.filename && /\.(tar|tar\.gz|tgz)$/i.test(part.filename)`. */
  predicate IsTarballName(filename: Option<string>) {
    filename.Some? && filename.value != [] &&
    (EndsWithIgnoringCase(filename.value, ".tar") || EndsWithIgnoringCase(filename.value, ".tar.gz") ||
     EndsWithIgnoringCase(filename.value, ".tgz"))
  }

  predicate SameMetadata(p: Part, q: Part) {
    p.filename == q.filename && p.name == q.name && p.contentType == q.contentType
  }

  /**
   * The part check as written: for a tarball the live part's data is parsed
   * twice and compared with itself.
   */
  predicate PartAgreesAsWritten<C(==)>(p: Part, q: Part, parseTarball: seq<Byte> -> C) {
    SameMetadata(p, q) &&
    if IsTarballName(p.filename) then parseTarball(p.data) == parseTarball(p.data)
    else LexCompare(p.data, q.data, ByteKey) == 0
  }

  /** The part check as intended: tarballs agree when their parsed contents do. */
  predicate PartAgrees<C(==)>(p: Part, q: Part, parseTarball: seq<Byte> -> C) {
    SameMetadata(p, q) &&
    if IsTarballName(p.filename) then parseTarball(p.data) == parseTarball(q.data)
    else LexCompare(p.data, q.data, ByteKey) == 0
  }

  /** As written, a tarball part agrees with any part of the same metadata. */
  lemma AsWrittenIgnoresTarballContents<C>(p: Part, q: Part, parseTarball: seq<Byte> -> C)
    requires SameMetadata(p, q) && IsTarballName(p.filename)
    ensures PartAgreesAsWritten(p, q, parseTarball)
  {
  }

  /** Two tarballs with different files: accepted as written, rejected as intended. */
  lemma TarballMismatchExample()
    ensures var p := Part(Some("c.tgz"), Some("files"), "application/gzip", [1]);
      var q := Part(Some("c.tgz"), Some("files"), "application/gzip", [2]);
      var parse := (d: seq<Byte>) => map["circuit.circom" := d];
      PartAgreesAsWritten(p, q, parse) && !PartAgrees(p, q, parse)
  {
    var parse := (d: seq<Byte>) => map["circuit.circom" := d];
    assert Lower(".tgz") == ".tgz";
    assert "c.tgz"[1..] == ".tgz";
    assert parse([1])["circuit.circom"] != parse([2])["circuit.circom"];
  }

  /**
   * The corrected check accepts no pair the check as written rejects, and the
   * two differ only on tarballs.
   */
  lemma CorrectedOnlyRejectsMore<C>(p: Part, q: Part, parseTarball: seq<Byte> -> C)
    ensures PartAgrees(p, q, parseTarball) ==> PartAgreesAsWritten(p, q, parseTarball)
    ensures !IsTarballName(p.filename) ==> (PartAgrees(p, q, parseTarball) <==> PartAgreesAsWritten(p, q, parseTarball))
    ensures PartAgreesAsWritten(p, q, parseTarball) && !PartAgrees(p, q, parseTarball) ==>
      IsTarballName(p.filename) && parseTarball(p.data) != parseTarball(q.data)
  {
  }

  /** Other parts agree exactly when their bytes are identical. */
  lemma NonTarballNeedsIdenticalBytes<C>(p: Part, q: Part, parseTarball: seq<Byte> -> C)
    requires SameMetadata(p, q) && !IsTarballName(p.filename)
    ensures PartAgrees(p, q, parseTarball) <==> p.data == q.data
  {
    LexZeroIsEqual(p.data, q.data, ByteKey);
  }

  /** Two part lists of the same length agree position by position. */
  predicate PairwiseAgree<C(==)>(sp: seq<Part>, sr: seq<Part>, parseTarball: seq<Byte> -> C) {
    |sp| == |sr| && forall i :: 0 <= i < |sp| ==> PartAgrees(sp[i], sr[i], parseTarball)
  }

  /** The two bodies' parts agree pairwise once both are sorted. */
  predicate BodiesMatch<C(==)>(parts: seq<Part>, recorded: seq<Part>, parseTarball: seq<Byte> -> C) {
    PairwiseAgree(SortParts(parts), SortParts(recorded), parseTarball)
  }

  /** A recorded body always matches a live body with the same parts. */
  lemma BodiesMatchItself<C>(parts: seq<Part>, parseTarball: seq<Byte> -> C)
    ensures BodiesMatch(parts, parts, parseTarball)
  {
    var sp := SortParts(parts);
    forall i | 0 <= i < |sp| ensures PartAgrees(sp[i], sp[i], parseTarball) {
      assert LexCompare(sp[i].data, sp[i].data, ByteKey) == 0;
    }
  }

  /** One iteration of the comparison loop: metadata first, then contents. */
  method CheckPart<C(==)>(part: Part, recordedPart: Part, parseTarball: seq<Byte> -> C) returns (agrees: bool)
    ensures agrees <==> PartAgrees(part, recordedPart, parseTarball)
  {
    if !SameMetadata(part, recordedPart) {
      return false;
    }
    if IsTarballName(part.filename) {
      if parseTarball(part.data) != parseTarball(recordedPart.data) {
        return false;
      }
    } else if LexCompare(part.data, recordedPart.data, ByteKey) != 0 {
      return false;
    }
    return true;
  }

  /** The length check and the comparison loop over the sorted parts. */
  method CompareSorted<C(==)>(parts: seq<Part>, recordedParts: seq<Part>, parseTarball: seq<Byte> -> C)
    returns (agree: bool)
    ensures agree <==> PairwiseAgree(parts, recordedParts, parseTarball)
  {
    if |parts| != |recordedParts| {
      return false;
    }
    for i := 0 to |parts|
      invariant forall k :: 0 <= k < i ==> PartAgrees(parts[k], recordedParts[k], parseTarball)
    {
      var agrees := CheckPart(parts[i], recordedParts[i], parseTarball);
      if !agrees {
        return false;
      }
    }
    return true;
  }

  /**
   * `filteringRequestBody`: the recorded body when both are strings with a
   * recognised boundary and their sorted parts agree, otherwise the live body
   * unchanged. `split` stands for boundary detection, decoding and multipart
   * parsing of both bodies (`None` when a boundary is missing).
   */
  method FilteringRequestBody<C(==)>(body: Option<string>, recordedBody: Option<string>,
                                     split: (string, string) -> Option<(seq<Part>, seq<Part>)>,
                                     parseTarball: seq<Byte> -> C)
    returns (r: Option<string>)
    ensures body.None? || recordedBody.None? ==> r == body
    ensures body.Some? && recordedBody.Some? && split(body.value, recordedBody.value).None? ==> r == body
    ensures body.Some? && recordedBody.Some? && split(body.value, recordedBody.value).Some? ==>
      r == if BodiesMatch(split(body.value, recordedBody.value).value.0,
                          split(body.value, recordedBody.value).value.1, parseTarball)
           then recordedBody else body
  {
    if body.None? || recordedBody.None? {
      return body;
    }
    var parsed := split(body.value, recordedBody.value);
    if parsed.None? {
      return body;
    }
    var parts := SortParts(parsed.value.0);
    var recordedParts := SortParts(parsed.value.1);
    var agree := CompareSorted(parts, recordedParts, parseTarball);
    r := if agree then recordedBody else body;
  }
}
