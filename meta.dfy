/**
 * Default build metadata (src/lib/utils.ts): decoding the `SINDRI_META`
 * environment variable, either as a JSON object or as `key=value:key=value`
 * with `::` standing for a literal colon; validating each entry against the
 * backend's limits; caching the decoded map in a module-level variable; and
 * merging caller metadata over the defaults.
 */
module Meta {
  import opened Wrappers
  import opened Text
  import opened Json

  type Meta = map<string, string>
  type Entry = (string, string)

  const KeyLengthLow: nat := 1
  const KeyLengthHigh: nat := 64
  const ValueLengthHigh: nat := 4096

  /** Why `validateMetaEntry` rejects an entry, in the order it checks. */
  datatype EntryError = KeyLengthInvalid | KeyCharactersInvalid | ValueLengthInvalid

  /** Why `getDefaultMeta` or `validateMetaAndMergeWithDefaults` throws. */
  datatype MetaFailure =
    | ValueNotString(key: string)
    | InvalidEntry(key: string, reason: EntryError)
    | JsonParseFailed
    | MissingEquals(segment: string)

  /** The key regex `^[a-zA-Z][a-zA-Z0-9_-]*$`. */
  predicate IsMetaKey(key: string) {
    |key| > 0 && IsLetter(key[0]) && forall i :: 1 <= i < |key| ==> IsWordChar(key[i])
  }

  /** A key the regex accepts is ASCII, so its JavaScript length is its number of characters. */
  lemma MetaKeyLength(key: string)
    requires IsMetaKey(key)
    ensures Utf16Length(key) == |key|
  {
    assert forall i :: 0 <= i < |key| ==> !IsAstral(key[i]) by {
      forall i | 0 <= i < |key| ensures !IsAstral(key[i]) {
        assert i == 0 || IsWordChar(key[i]);
      }
    }
  }

  /**
   * `validateMetaEntry`: `None` for a valid entry, otherwise the first failing
   * check among key length, key characters and value length. Lengths are
   * JavaScript's, in UTF-16 code units; the value's lower bound 0 never fails.
   */
  function ValidateMetaEntry(key: string, value: string): (r: Option<EntryError>)
    ensures r.None? <==>
      KeyLengthLow <= Utf16Length(key) <= KeyLengthHigh && IsMetaKey(key) && Utf16Length(value) <= ValueLengthHigh
    ensures r == Some(KeyLengthInvalid) <==> !(KeyLengthLow <= Utf16Length(key) <= KeyLengthHigh)
    ensures r == Some(KeyCharactersInvalid) <==>
      KeyLengthLow <= Utf16Length(key) <= KeyLengthHigh && !IsMetaKey(key)
    ensures r == Some(ValueLengthInvalid) <==>
      KeyLengthLow <= Utf16Length(key) <= KeyLengthHigh && IsMetaKey(key) && Utf16Length(value) > ValueLengthHigh
  {
    var keyLength := Utf16Length(key);
    if keyLength < KeyLengthLow || keyLength > KeyLengthHigh then Some(KeyLengthInvalid)
    else if !IsMetaKey(key) then Some(KeyCharactersInvalid)
    else if Utf16Length(value) > ValueLengthHigh then Some(ValueLengthInvalid)
    else None
  }

  /** A value of 2049 astral characters is 4098 code units long, over the limit. */
  lemma LongAstralValueRejected(key: string, value: string)
    requires IsMetaKey(key) && |key| <= KeyLengthHigh
    requires |value| == 2049 && forall i :: 0 <= i < |value| ==> IsAstral(value[i])
    ensures ValidateMetaEntry(key, value) == Some(ValueLengthInvalid)
  {
    MetaKeyLength(key);
    AllAstralCountsTwice(value);
  }

  lemma {:induction false} AllAstralCountsTwice(s: string)
    requires forall i :: 0 <= i < |s| ==> IsAstral(s[i])
    ensures Utf16Length(s) == 2 * |s|
  {
    if s != [] {
      AllAstralCountsTwice(s[1..]);
    }
  }

  predicate ValidEntry(e: Entry) {
    ValidateMetaEntry(e.0, e.1).None?
  }

  /**
   * The `validationFilter` callback applied by `Array.prototype.filter`: keeps
   * string-valued valid entries; a rejected entry is dropped, or throws when
   * `raise` holds (the first rejected entry in order is the one that throws).
   */
  function ValidationFilter(es: seq<(string, Json)>, raise: bool): (r: Result<seq<Entry>, MetaFailure>)
    ensures r.Ok? ==> forall i :: 0 <= i < |r.value| ==> ValidEntry(r.value[i])
    ensures r.Ok? ==> forall i :: 0 <= i < |r.value| ==> (r.value[i].0, JStr(r.value[i].1)) in es
    ensures !raise ==> r.Ok?
    ensures raise && r.Ok? ==> |r.value| == |es|
  {
    if es == [] then Ok([])
    else
      var (key, value) := es[0];
      var rest := ValidationFilter(es[1..], raise);
      if !value.JStr? then
        if raise then Err(ValueNotString(key)) else rest
      else if ValidateMetaEntry(key, value.s).Some? then
        if raise then Err(InvalidEntry(key, ValidateMetaEntry(key, value.s).value)) else rest
      else if rest.Err? then rest
      else Ok([(key, value.s)] + rest.value)
  }

  /**
   * Without `raise` the filter keeps exactly the valid string entries, in
   * order: it distributes over concatenation ...
   */
  lemma {:induction false} FilterConcat(a: seq<(string, Json)>, b: seq<(string, Json)>)
    ensures ValidationFilter(a + b, false).value == ValidationFilter(a, false).value + ValidationFilter(b, false).value
  {
    if a == [] {
      assert a + b == b;
    } else {
      assert (a + b)[0] == a[0] && (a + b)[1..] == a[1..] + b;
      FilterConcat(a[1..], b);
      var rest := ValidationFilter(a[1..], false).value;
      if a[0].1.JStr? && ValidateMetaEntry(a[0].0, a[0].1.s).None? {
        assert ValidationFilter(a, false).value == [(a[0].0, a[0].1.s)] + rest;
        assert ValidationFilter(a + b, false).value ==
          [(a[0].0, a[0].1.s)] + (rest + ValidationFilter(b, false).value);
      }
    }
  }

  /** ... and keeps a single entry iff it is a valid string entry. */
  lemma FilterSingle(key: string, value: Json)
    ensures ValidationFilter([(key, value)], false).value ==
      if value.JStr? && ValidateMetaEntry(key, value.s).None? then [(key, value.s)] else []
  {
    assert [(key, value)][1..] == [];
  }

  /** With `raise` the filter succeeds iff every entry is a valid string entry, and then keeps them all. */
  lemma {:induction false} FilterRaiseIff(es: seq<(string, Json)>)
    ensures var r := ValidationFilter(es, true);
      r.Ok? <==> forall i :: 0 <= i < |es| ==> es[i].1.JStr? && ValidateMetaEntry(es[i].0, es[i].1.s).None?
    ensures var r := ValidationFilter(es, true);
      r.Ok? ==> forall i :: 0 <= i < |es| ==> r.value[i] == (es[i].0, es[i].1.s)
  {
    if es != [] {
      FilterRaiseIff(es[1..]);
      assert forall i :: 1 <= i < |es| ==> es[i] == es[1..][i - 1];
    }
  }

  /** `Object.fromEntries`: a later entry for the same key wins. */
  function FromEntries(es: seq<Entry>): (m: Meta)
    ensures forall k :: k in m ==> exists i :: 0 <= i < |es| && es[i] == (k, m[k])
    ensures forall i :: 0 <= i < |es| ==> es[i].0 in m
  {
    if es == [] then map[]
    else FromEntries(es[..|es| - 1])[es[|es| - 1].0 := es[|es| - 1].1]
  }

  /** The value stored for a key is that of the last entry with the key. */
  lemma {:induction false} FromEntriesLastWins(es: seq<Entry>, i: nat)
    requires i < |es| && forall j :: i < j < |es| ==> es[j].0 != es[i].0
    ensures es[i].0 in FromEntries(es) && FromEntries(es)[es[i].0] == es[i].1
  {
    if i < |es| - 1 {
      var front := es[..|es| - 1];
      assert forall j :: i < j < |front| ==> front[j] == es[j];
      FromEntriesLastWins(front, i);
    }
  }

  // ---- The colon format ----

  /** `s.replace(/::/g, "\0")`: non-overlapping, left to right. */
  function ReplaceEscapedColons(s: string): string {
    if |s| >= 2 && s[0] == ':' && s[1] == ':' then ['\0'] + ReplaceEscapedColons(s[2..])
    else if s == [] then []
    else [s[0]] + ReplaceEscapedColons(s[1..])
  }

  /** `segment.replace(/\0/g, ":")`. */
  function RestoreColons(s: string): (r: string)
    ensures |r| == |s|
  {
    if s == [] then [] else [if s[0] == '\0' then ':' else s[0]] + RestoreColons(s[1..])
  }

  /** Splits the colon format into segments, `::` standing for a literal colon. */
  function ColonSegments(s: string): (r: seq<string>)
    ensures |r| >= 1
  {
    var pieces := Split(ReplaceEscapedColons(s), ':');
    seq(|pieces|, i requires 0 <= i < |pieces| => RestoreColons(pieces[i]))
  }

  /** The first `.filter`: segments without `=` are dropped, or throw when `raise` holds. */
  function SegmentsWithEquals(segs: seq<string>, raise: bool): (r: Result<seq<string>, MetaFailure>)
    ensures r.Ok? ==> forall i :: 0 <= i < |r.value| ==> '=' in r.value[i]
    ensures r.Ok? ==> forall i :: 0 <= i < |r.value| ==> r.value[i] in segs
    ensures !raise ==> r.Ok?
    ensures r.Err? ==> exists i :: 0 <= i < |segs| && r.error == MissingEquals(segs[i]) && '=' !in segs[i]
    ensures (forall i :: 0 <= i < |segs| ==> '=' in segs[i]) ==> r == Ok(segs)
  {
    if segs == [] then Ok([])
    else
      var rest := SegmentsWithEquals(segs[1..], raise);
      if '=' !in segs[0] then
        if raise then Err(MissingEquals(segs[0])) else rest
      else if rest.Err? then rest
      else
        assert segs == [segs[0]] + segs[1..];
        Ok([segs[0]] + rest.value)
  }

  /** Splits a segment at its first `=`: the value may itself contain `=`. */
  function SplitSegment(seg: string): (e: Entry)
    requires '=' in seg
    ensures '=' !in e.0
    ensures e.0 + "=" + e.1 == seg
  {
    var i := IndexOf(seg, '=');
    assert seg == seg[..i] + "=" + seg[i + 1..];
    (seg[..i], seg[i + 1..])
  }

  function SplitSegments(segs: seq<string>): (es: seq<(string, Json)>)
    requires forall i :: 0 <= i < |segs| ==> '=' in segs[i]
    ensures |es| == |segs|
  {
    seq(|segs|, i requires 0 <= i < |segs| => var e := SplitSegment(segs[i]); (e.0, JStr(e.1)))
  }

  /** The `key=value:key=value` branch of `getDefaultMeta`. */
  function DecodeColonFormat(s: string, raise: bool): (r: Result<Meta, MetaFailure>)
  {
    var segs := SegmentsWithEquals(ColonSegments(s), raise);
    if segs.Err? then Err(segs.error)
    else
      var entries := ValidationFilter(SplitSegments(segs.value), raise);
      if entries.Err? then Err(entries.error) else Ok(FromEntries(entries.value))
  }

  /**
   * What the process environment offers `getDefaultMeta`: whether this is the
   * browser build, `SINDRI_META` (`None` when unset), and `JSON.parse` as an
   * oracle (`None` when it throws; a parsed `{...}` is an object's entries).
   */
  datatype Environment = Environment(
    browserBuild: bool,
    sindriMeta: Option<string>,
    parseJson: string -> Option<seq<(string, Json)>>)

  /**
   * `getDefaultMeta` after its cache test: `{}` in the browser or with
   * `SINDRI_META` unset or empty; the JSON branch alone for input starting
   * with `{`; the colon format otherwise. In the JSON branch an entry that
   * throws is caught by the surrounding `try`, so with `raise` it surfaces as
   * `JsonParseFailed`.
   */
  function DecodeDefaultMeta(env: Environment, raise: bool): (r: Result<Meta, MetaFailure>)
  {
    if env.browserBuild || !StrTruthy(env.sindriMeta) then Ok(map[])
    else
      var s := env.sindriMeta.value;
      if StartsWith(s, "{") then
        match env.parseJson(s)
        case None => if raise then Err(JsonParseFailed) else Ok(map[])
        case Some(es) =>
          var entries := ValidationFilter(es, raise);
          if entries.Err? then Err(JsonParseFailed) else Ok(FromEntries(entries.value))
      else DecodeColonFormat(s, raise)
  }

  /** Every entry of a decoded map has a string value that passes `validateMetaEntry`. */
  lemma DecodedEntriesAreValid(env: Environment, raise: bool)
    ensures var r := DecodeDefaultMeta(env, raise);
      r.Ok? ==> forall k :: k in r.value ==> ValidateMetaEntry(k, r.value[k]).None?
  {
  }

  /** Without `raise` decoding never throws. */
  lemma DecodeWithoutRaiseSucceeds(env: Environment)
    ensures DecodeDefaultMeta(env, false).Ok?
  {
  }

  /** Input starting with `{` never falls back to the colon format: a parse failure is `{}` or throws. */
  lemma JsonFailureNeverFallsBack(env: Environment, raise: bool)
    requires !env.browserBuild && env.sindriMeta.Some?
    requires StartsWith(env.sindriMeta.value, "{")
    requires env.parseJson(env.sindriMeta.value).None?
    ensures DecodeDefaultMeta(env, raise) == if raise then Err(JsonParseFailed) else Ok(map[])
  {
  }

  // ---- Encoding, the inverse of the colon format ----

  /** Doubles every colon. */
  function EscapeColons(s: string): (r: string)
    ensures s != [] ==> r != [] && (s[0] != ':' ==> r[0] == s[0])
  {
    if s == [] then [] else (if s[0] == ':' then "::" else [s[0]]) + EscapeColons(s[1..])
  }

  /** Replaces every colon by the placeholder `\0`. */
  function MarkColons(s: string): (r: string)
    ensures |r| == |s| && ':' !in r
  {
    if s == [] then [] else [if s[0] == ':' then '\0' else s[0]] + MarkColons(s[1..])
  }

  /** An entry written as one segment, before escaping. */
  function Segment(e: Entry): (r: string)
    ensures |r| > |e.0| && r[|e.0|] == '=' && r[..|e.0|] == e.0
  {
    e.0 + "=" + e.1
  }

  function Segments(es: seq<Entry>): (r: seq<string>)
    ensures |r| == |es| && forall i :: 0 <= i < |es| ==> r[i] == Segment(es[i])
  {
    if es == [] then [] else [Segment(es[0])] + Segments(es[1..])
  }

  function EscapedSegments(es: seq<Entry>): (r: seq<string>)
    ensures |r| == |es| && forall i :: 0 <= i < |es| ==> r[i] == EscapeColons(Segment(es[i]))
  {
    if es == [] then [] else [EscapeColons(Segment(es[0]))] + EscapedSegments(es[1..])
  }

  function MarkedSegments(es: seq<Entry>): (r: seq<string>)
    ensures |r| == |es| && forall i :: 0 <= i < |es| ==> r[i] == MarkColons(Segment(es[i]))
  {
    if es == [] then [] else [MarkColons(Segment(es[0]))] + MarkedSegments(es[1..])
  }

  /** Writes entries in the colon format that `getDefaultMeta` reads. */
  function EncodeColonFormat(es: seq<Entry>): string {
    if es == [] then [] else Join(EscapedSegments(es), ':')
  }

  lemma ReplaceDoubled(x: string)
    ensures ReplaceEscapedColons("::" + x) == ['\0'] + ReplaceEscapedColons(x)
  {
    assert ("::" + x)[2..] == x;
  }

  lemma ReplaceOther(c: char, x: string)
    requires c != ':'
    ensures ReplaceEscapedColons([c] + x) == [c] + ReplaceEscapedColons(x)
  {
    assert ([c] + x)[1..] == x;
  }

  lemma {:induction false} ReplaceAfterEscape(s: string, t: string)
    ensures ReplaceEscapedColons(EscapeColons(s) + t) == MarkColons(s) + ReplaceEscapedColons(t)
  {
    if s == [] {
      assert EscapeColons(s) + t == t;
    } else {
      ReplaceAfterEscape(s[1..], t);
      ReplaceAfterEscapeStep(s, t);
    }
  }

  lemma ReplaceAfterEscapeStep(s: string, t: string)
    requires s != []
    requires ReplaceEscapedColons(EscapeColons(s[1..]) + t) == MarkColons(s[1..]) + ReplaceEscapedColons(t)
    ensures ReplaceEscapedColons(EscapeColons(s) + t) == MarkColons(s) + ReplaceEscapedColons(t)
  {
    EscapeStep(s, t);
    MarkStep(s);
    var c := if s[0] == ':' then '\0' else s[0];
    ConsAssoc(c, MarkColons(s[1..]), ReplaceEscapedColons(t));
  }

  lemma MarkStep(s: string)
    requires s != []
    ensures MarkColons(s) == [if s[0] == ':' then '\0' else s[0]] + MarkColons(s[1..])
  {
  }

  lemma ConsAssoc(c: char, a: string, b: string)
    ensures [c] + (a + b) == ([c] + a) + b
  {
  }

  lemma EscapeStep(s: string, t: string)
    requires s != []
    ensures ReplaceEscapedColons(EscapeColons(s) + t) ==
      [if s[0] == ':' then '\0' else s[0]] + ReplaceEscapedColons(EscapeColons(s[1..]) + t)
  {
    var x := EscapeColons(s[1..]) + t;
    if s[0] == ':' {
      assert EscapeColons(s) + t == "::" + x;
      ReplaceDoubled(x);
    } else {
      assert EscapeColons(s) + t == [s[0]] + x;
      ReplaceOther(s[0], x);
    }
  }

  lemma {:induction false} ReplaceAtSeparator(t: string)
    requires t == [] || t[0] != ':'
    ensures ReplaceEscapedColons([':'] + t) == [':'] + ReplaceEscapedColons(t)
  {
    assert ([':'] + t)[1..] == t;
  }

  lemma {:induction false} RestoreMarked(s: string)
    requires '\0' !in s
    ensures RestoreColons(MarkColons(s)) == s
  {
    if s != [] {
      RestoreMarked(s[1..]);
    }
  }

  /** Entries the colon format can carry: valid, and no `\0` in a value. */
  predicate Encodable(es: seq<Entry>) {
    forall i :: 0 <= i < |es| ==> ValidEntry(es[i]) && '\0' !in es[i].1
  }

  /** A metadata key holds none of the characters the colon format gives a meaning to. */
  lemma KeyHasNoSpecial(k: string)
    requires IsMetaKey(k)
    ensures '=' !in k && '\0' !in k && ':' !in k
  {
    forall j | 0 <= j < |k| ensures k[j] != '=' && k[j] != '\0' && k[j] != ':' {
      assert j == 0 || IsWordChar(k[j]);
    }
  }

  /** The encoding of encodable entries starts with the first key's first letter. */
  lemma EncodingStartsWithKey(es: seq<Entry>)
    requires |es| >= 1 && Encodable(es)
    ensures |EncodeColonFormat(es)| > 0 && EncodeColonFormat(es)[0] == es[0].0[0]
    ensures IsLetter(EncodeColonFormat(es)[0])
  {
    var parts := EscapedSegments(es);
    assert IsMetaKey(es[0].0);
    assert Segment(es[0])[0] == es[0].0[0];
    JoinHead(parts, ':');
  }

  lemma {:induction false} ReplaceEncoded(es: seq<Entry>)
    requires |es| >= 1 && Encodable(es)
    ensures ReplaceEscapedColons(EncodeColonFormat(es)) == Join(MarkedSegments(es), ':')
  {
    var head := Segment(es[0]);
    if |es| == 1 {
      ReplaceAfterEscape(head, []);
      assert EncodeColonFormat(es) == EscapeColons(head) + [];
    } else {
      var tail := es[1..];
      ReplaceEncoded(tail);
      var rest := EncodeColonFormat(tail);
      JoinCons(EscapedSegments(es), ':');
      assert EscapedSegments(es)[1..] == EscapedSegments(tail);
      assert EncodeColonFormat(es) == EscapeColons(head) + ([':'] + rest);
      EncodingStartsWithKey(tail);
      ReplaceAfterEscape(head, [':'] + rest);
      ReplaceAtSeparator(rest);
      JoinCons(MarkedSegments(es), ':');
      assert MarkedSegments(es)[1..] == MarkedSegments(tail);
    }
  }

  lemma ColonSegmentsOfEncoding(es: seq<Entry>)
    requires |es| >= 1 && Encodable(es)
    ensures ColonSegments(EncodeColonFormat(es)) == Segments(es)
  {
    var marked := MarkedSegments(es);
    assert Split(ReplaceEscapedColons(EncodeColonFormat(es)), ':') == marked by {
      ReplaceEncoded(es);
      SplitJoin(marked, ':');
    }
    RestoreMarkedSegments(es);
  }

  /** Restoring the colons of each marked segment gives back the segment. */
  lemma RestoreMarkedSegments(es: seq<Entry>)
    requires Encodable(es)
    ensures forall i :: 0 <= i < |es| ==> RestoreColons(MarkedSegments(es)[i]) == Segment(es[i])
  {
    forall i | 0 <= i < |es|
      ensures RestoreColons(MarkedSegments(es)[i]) == Segment(es[i])
    {
      KeyHasNoSpecial(es[i].0);
      RestoreMarked(Segment(es[i]));
    }
  }

  /** The entries the JSON-shaped filter sees: string values. */
  function StringEntries(es: seq<Entry>): (r: seq<(string, Json)>)
    ensures |r| == |es| && forall i :: 0 <= i < |es| ==> r[i] == (es[i].0, JStr(es[i].1))
  {
    if es == [] then [] else [(es[0].0, JStr(es[0].1))] + StringEntries(es[1..])
  }

  /** Splitting each segment at its first `=` gives back the entry. */
  lemma SplitSegmentsOfEncoding(es: seq<Entry>)
    requires Encodable(es)
    ensures forall i :: 0 <= i < |es| ==> '=' in Segments(es)[i]
    ensures SplitSegments(Segments(es)) == StringEntries(es)
  {
    var segs := Segments(es);
    var split := SplitSegments(segs);
    forall i | 0 <= i < |es| ensures split[i] == (es[i].0, JStr(es[i].1)) {
      KeyHasNoSpecial(es[i].0);
      var e := SplitSegment(segs[i]);
      SplitAtFirstEquals(es[i].0, es[i].1, e.0, e.1);
    }
  }

  /**
   * Round trip of the colon format: encoding valid entries (values may hold
   * `:` and `=`) and decoding gives back exactly those entries, for either
   * setting of `raise`.
   */
  lemma ColonFormatRoundTrip(es: seq<Entry>, raise: bool)
    requires |es| >= 1 && Encodable(es)
    ensures DecodeColonFormat(EncodeColonFormat(es), raise) == Ok(FromEntries(es))
  {
    ColonSegmentsOfEncoding(es);
    SplitSegmentsOfEncoding(es);
    assert SegmentsWithEquals(Segments(es), raise) == Ok(Segments(es));
    AllValidKept(StringEntries(es), es, raise);
  }

  /**
   * The same round trip through `getDefaultMeta`'s decoding: `SINDRI_META` set
   * to the encoding of any encodable entries (none at all included: the empty
   * string is falsy) decodes to those entries outside the browser build.
   */
  lemma DefaultMetaRoundTrip(env: Environment, es: seq<Entry>, raise: bool)
    requires Encodable(es)
    requires !env.browserBuild && env.sindriMeta == Some(EncodeColonFormat(es))
    ensures DecodeDefaultMeta(env, raise) == Ok(FromEntries(es))
  {
    if es != [] {
      EncodingStartsWithKey(es);
      ColonBranch(env, raise);
      ColonFormatRoundTrip(es, raise);
    }
  }

  /** Input that is set, non-empty and does not start with `{` is read in the colon format. */
  lemma ColonBranch(env: Environment, raise: bool)
    requires !env.browserBuild && StrTruthy(env.sindriMeta)
    requires env.sindriMeta.value[0] != '{'
    ensures DecodeDefaultMeta(env, raise) == DecodeColonFormat(env.sindriMeta.value, raise)
  {
    assert !StartsWith(env.sindriMeta.value, "{");
  }

  lemma {:induction false} SplitAtFirstEquals(k: string, v: string, k2: string, v2: string)
    requires '=' !in k && '=' !in k2
    requires k + "=" + v == k2 + "=" + v2
    ensures k == k2 && v == v2
  {
    var s := k + "=" + v;
    assert s[|k|] == '=' && s[|k2|] == '=';
    assert forall j :: 0 <= j < |k| ==> s[j] == k[j];
    assert forall j :: 0 <= j < |k2| ==> s[j] == k2[j];
    assert |k| == |k2|;
    assert k == s[..|k|] == k2;
    assert v == s[|k| + 1..] == v2;
  }

  lemma {:induction false} AllValidKept(split: seq<(string, Json)>, es: seq<Entry>, raise: bool)
    requires |split| == |es|
    requires forall i :: 0 <= i < |es| ==> split[i] == (es[i].0, JStr(es[i].1)) && ValidEntry(es[i])
    ensures ValidationFilter(split, raise) == Ok(es)
  {
    if es != [] {
      AllValidKept(split[1..], es[1..], raise);
      assert es == [es[0]] + es[1..];
    }
  }

  /**
   * The module-level cache `cachedDefaultMeta`. An empty cached map is still
   * an object, so it counts as cached.
   */
  class DefaultMetaCache {
    var cached: Option<Meta>

    constructor ()
      ensures cached == None
    {
      cached := None;
    }

    /**
     * `getDefaultMeta`: with `cache` and a cached map, that map, nothing re-read
     * and nothing raised; otherwise the decoded map, stored on every path that
     * does not throw.
     */
    method GetDefaultMeta(env: Environment, cache: bool, raise: bool) returns (r: Result<Meta, MetaFailure>)
      modifies this
      ensures cache && old(cached).Some? ==> r == Ok(old(cached).value) && cached == old(cached)
      ensures !(cache && old(cached).Some?) ==>
        r == DecodeDefaultMeta(env, raise) && cached == (if r.Ok? then Some(r.value) else old(cached))
    {
      if cache && cached.Some? {
        return Ok(cached.value);
      }
      r := DecodeDefaultMeta(env, raise);
      if r.Ok? {
        cached := Some(r.value);
      }
    }

    /**
     * `validateMetaAndMergeWithDefaults`: loads the defaults (cached, raising),
     * throws on the first invalid caller entry, and otherwise lays the caller's
     * entries over the defaults.
     */
    method ValidateMetaAndMergeWithDefaults(env: Environment, meta: seq<Entry>)
      returns (r: Result<Meta, MetaFailure>)
      modifies this
      ensures r.Ok? ==> forall i :: 0 <= i < |meta| ==> ValidEntry(meta[i])
      ensures (forall i :: 0 <= i < |meta| ==> ValidEntry(meta[i])) && old(cached).Some? ==>
        r == Ok(old(cached).value + FromEntries(meta))
      ensures (forall i :: 0 <= i < |meta| ==> ValidEntry(meta[i])) && old(cached).None? ==>
        var d := DecodeDefaultMeta(env, true);
        r == if d.Ok? then Ok(d.value + FromEntries(meta)) else Err(d.error)
      ensures r.Err? ==>
        (old(cached).None? && DecodeDefaultMeta(env, true) == Err(r.error)) ||
        (exists i :: 0 <= i < |meta| && !ValidEntry(meta[i]) && (forall j :: 0 <= j < i ==> ValidEntry(meta[j])) &&
           r.error == InvalidEntry(meta[i].0, ValidateMetaEntry(meta[i].0, meta[i].1).value))
      ensures old(cached).None? && DecodeDefaultMeta(env, true).Err? ==> r == Err(DecodeDefaultMeta(env, true).error)
      ensures old(cached).Some? ==> cached == old(cached)
      ensures old(cached).None? ==> cached == (var d := DecodeDefaultMeta(env, true); if d.Ok? then Some(d.value) else None)
    {
      var defaults := GetDefaultMeta(env, true, true);
      if defaults.Err? {
        return Err(defaults.error);
      }
      var i := 0;
      while i < |meta|
        invariant 0 <= i <= |meta|
        invariant forall j :: 0 <= j < i ==> ValidEntry(meta[j])
      {
        var err := ValidateMetaEntry(meta[i].0, meta[i].1);
        if err.Some? {
          return Err(InvalidEntry(meta[i].0, err.value));
        }
        i := i + 1;
      }
      r := Ok(defaults.value + FromEntries(meta));
    }
  }

  /** The merge keeps every caller value and, for every other default key, the default. */
  lemma MergeKeepsCallerAndDefaults(defaults: Meta, meta: seq<Entry>)
    ensures forall k :: k in FromEntries(meta) ==> (defaults + FromEntries(meta))[k] == FromEntries(meta)[k]
    ensures forall k :: k in defaults && k !in FromEntries(meta) ==> (defaults + FromEntries(meta))[k] == defaults[k]
    ensures (defaults + FromEntries(meta)).Keys == defaults.Keys + FromEntries(meta).Keys
  {
  }
}
