/**
 * The `init` command of src/cli/init.ts: the default circuit and package names
 * offered at the prompts, the validators the prompts apply, and the order of
 * the checks and scaffolding steps. Prompting, rendering templates and the
 * optional `git init` are not modelled; a prompt's answer is an input.
 */
module Init {
  import opened Wrappers
  import opened Text

  /**
   * What the replacement `/[^-a-zA-Z0-9_]/g` by `-` writes for one character.
   * The regex has no `u` flag, so it matches UTF-16 code units: an astral
   * character, two code units, becomes `--`.
   */
  function ReplaceNonWord(c: char): string {
    if IsWordChar(c) then [c] else if IsAstral(c) then "--" else "-"
  }

  /**
   * The default circuit name: every code unit outside `[-a-zA-Z0-9_]` becomes
   * `-`, so the name has as many code units as the directory name, all of
   * them in the class.
   */
  function DefaultCircuitName(directoryName: string): (r: string)
    ensures Utf16Length(r) == Utf16Length(directoryName)
    ensures r == [] <==> directoryName == []
    ensures forall i :: 0 <= i < |r| ==> IsWordChar(r[i])
  {
    if directoryName == [] then []
    else
      var rest := DefaultCircuitName(directoryName[1..]);
      var head := ReplaceNonWord(directoryName[0]);
      Utf16Concat(head, rest);
      assert Utf16Length(head) == (if IsAstral(directoryName[0]) then 2 else 1) by {
        assert head == [head[0]] + head[1..];
        if |head| == 2 { assert head[1..] == [head[1]]; }
      }
      head + rest
  }

  lemma {:induction false} Utf16Concat(a: string, b: string)
    ensures Utf16Length(a + b) == Utf16Length(a) + Utf16Length(b)
  {
    if a == [] {
      assert a + b == b;
    } else {
      assert (a + b)[1..] == a[1..] + b;
      Utf16Concat(a[1..], b);
    }
  }

  /** The replacement works character by character, in order. */
  lemma {:induction false} DefaultCircuitNameConcat(a: string, b: string)
    ensures DefaultCircuitName(a + b) == DefaultCircuitName(a) + DefaultCircuitName(b)
  {
    if a == [] {
      assert a + b == b;
    } else {
      assert (a + b)[0] == a[0] && (a + b)[1..] == a[1..] + b;
      DefaultCircuitNameConcat(a[1..], b);
    }
  }

  /** A name without astral characters keeps its length, each character kept or replaced by `-`. */
  lemma {:induction false} DefaultCircuitNameOfBmp(directoryName: string)
    requires forall i :: 0 <= i < |directoryName| ==> !IsAstral(directoryName[i])
    ensures var r := DefaultCircuitName(directoryName);
      |r| == |directoryName| &&
      forall i :: 0 <= i < |r| ==>
        (IsWordChar(directoryName[i]) ==> r[i] == directoryName[i]) &&
        (!IsWordChar(directoryName[i]) ==> r[i] == '-')
  {
    if directoryName != [] {
      DefaultCircuitNameOfBmp(directoryName[1..]);
      var r := DefaultCircuitName(directoryName);
      assert r == ReplaceNonWord(directoryName[0]) + DefaultCircuitName(directoryName[1..]);
      assert forall i :: 1 <= i < |directoryName| ==> directoryName[1..][i - 1] == directoryName[i];
    }
  }

  /** An emoji in the directory name becomes two hyphens. */
  lemma AstralBecomesTwoHyphens()
    ensures DefaultCircuitName("a\U{1F600}") == "a--"
  {
    assert "a\U{1F600}"[1..] == "\U{1F600}";
    assert "\U{1F600}"[1..] == "";
  }

  /** The circuit-name validator: `None` is acceptance, otherwise the message shown. */
  function ValidateCircuitName(input: string): (r: Option<string>)
    ensures r.None? <==> IsWord(input)
    ensures input == [] ==> r == Some("You must specify a circuit name.")
  {
    if |input| == 0 then Some("You must specify a circuit name.")
    else if !IsWord(input) then Some("Only alphanumeric characters, hyphens, and underscores are allowed.")
    else None
  }

  /** The default circuit name passes the validator whenever the directory name is not empty. */
  lemma DefaultCircuitNameIsValid(directoryName: string)
    requires directoryName != []
    ensures ValidateCircuitName(DefaultCircuitName(directoryName)).None?
  {
  }

  /**
   * `replace(/[^a-zA-Z0-9]/g, "")`; both halves of an astral character are
   * outside the class, so removing code units or characters is the same.
   */
  function KeepAlnum(s: string): (r: string)
    ensures forall i :: 0 <= i < |r| ==> IsAlnum(r[i])
    ensures |r| <= |s|
  {
    if s == [] then [] else (if IsAlnum(s[0]) then [s[0]] else []) + KeepAlnum(s[1..])
  }

  /** The removal keeps the alphanumeric characters in order, each as often as it occurs: it distributes over concatenation ... */
  lemma {:induction false} KeepAlnumConcat(a: string, b: string)
    ensures KeepAlnum(a + b) == KeepAlnum(a) + KeepAlnum(b)
  {
    if a == [] {
      assert a + b == b;
    } else {
      assert (a + b)[0] == a[0] && (a + b)[1..] == a[1..] + b;
      KeepAlnumConcat(a[1..], b);
    }
  }

  /** ... and keeps a single character iff it is alphanumeric. */
  lemma KeepAlnumSingle(c: char)
    ensures KeepAlnum([c]) == if IsAlnum(c) then [c] else []
  {
    assert [c][1..] == [];
  }

  /** The replacement of the anchored pattern `^[^a-z]*` by the empty string: drops the longest prefix without a lowercase letter. */
  function StripToLower(s: string): (r: string)
    ensures |r| <= |s| && r == s[|s| - |r|..]
    ensures r == [] || IsLower(r[0])
    ensures forall i :: 0 <= i < |s| - |r| ==> !IsLower(s[i])
  {
    if s == [] || IsLower(s[0]) then s else StripToLower(s[1..])
  }

  /**
   * The default Go package name offered for a circuit name: what remains of
   * its alphanumeric characters after those before the first lowercase letter
   * are dropped.
   */
  function DefaultPackageName(circuitName: string): (r: string)
    ensures r == [] || IsLower(r[0])
    ensures forall i :: 0 <= i < |r| ==> IsAlnum(r[i])
    ensures var k := KeepAlnum(circuitName);
      |r| <= |k| && r == k[|k| - |r|..] && forall i :: 0 <= i < |k| - |r| ==> !IsLower(k[i])
  {
    StripToLower(KeepAlnum(circuitName))
  }

  /** The package-name regex `^[a-z][a-z0-9]*$`. */
  predicate IsPackageName(s: string) {
    |s| > 0 && IsLower(s[0]) && forall i :: 1 <= i < |s| ==> IsLower(s[i]) || IsDigit(s[i])
  }

  function ValidatePackageName(input: string): (r: Option<string>)
    ensures r.None? <==> IsPackageName(input)
    ensures input == [] ==> r == Some("You must specify a package.")
  {
    if |input| == 0 then Some("You must specify a package.")
    else if !IsPackageName(input) then
      Some("Package names must begin with a lowercase letter and only be followed by alphanumeric characters.")
    else None
  }

  /**
   * The default package name passes the validator exactly when it is not empty
   * and has no uppercase letter: uppercase letters after the first lowercase
   * one survive both replacements.
   */
  lemma DefaultPackageNameValidIff(circuitName: string)
    ensures var p := DefaultPackageName(circuitName);
      ValidatePackageName(p).None? <==> p != [] && forall i :: 0 <= i < |p| ==> !IsUpper(p[i])
  {
    var p := DefaultPackageName(circuitName);
    if p != [] && forall i :: 0 <= i < |p| ==> !IsUpper(p[i]) {
      forall i | 1 <= i < |p| ensures IsLower(p[i]) || IsDigit(p[i]) {
        assert IsAlnum(p[i]) && !IsUpper(p[i]);
      }
      assert IsPackageName(p);
    }
    if IsPackageName(p) {
      forall i | 0 <= i < |p| ensures !IsUpper(p[i]) {
        if i > 0 { assert IsLower(p[i]) || IsDigit(p[i]); }
      }
    }
  }

  /** A circuit name whose default package name the package validator rejects. */
  lemma DefaultPackageNameCanFail()
    ensures DefaultPackageName("aB") == "aB" && ValidatePackageName("aB").Some?
  {
    assert KeepAlnum("aB") == "aB" by {
      assert KeepAlnum("B") == "B" by { assert KeepAlnum([]) == []; }
      assert "aB"[1..] == "B";
    }
    assert !IsPackageName("aB") by { assert !IsLower('B') && !IsDigit('B'); }
  }

  /** What is at the target path. */
  datatype DirectoryState = Absent | NotADirectory | Directory(entries: seq<string>)

  datatype InitResult = Exit1(reason: string) | Scaffolded(context: map<string, string>)

  /**
   * The `init` action: creates a missing directory, refuses a non-directory,
   * asks before writing into a non-empty directory, and scaffolds only the
   * `gnark` framework, `common` first. Returns the scaffolded templates in order.
   */
  method InitAction(state: DirectoryState, confirmed: bool, circuitName: string, circuitType: string,
                    packageName: string)
    returns (result: InitResult, created: bool, scaffolded: seq<string>)
    ensures state == NotADirectory ==> result.Exit1? && scaffolded == [] && !created
    ensures created <==> state == Absent
    ensures state.Directory? && state.entries != [] && !confirmed ==> result.Exit1? && scaffolded == []
    ensures circuitType != "gnark" ==> result.Exit1? && scaffolded == []
    ensures result.Scaffolded? <==> scaffolded != []
    ensures result.Scaffolded? <==>
      circuitType == "gnark" && state != NotADirectory &&
      (state.Directory? && state.entries != [] ==> confirmed)
    ensures result.Scaffolded? ==>
      scaffolded == ["common", "gnark"] &&
      result.context == map["circuitName" := circuitName, "circuitType" := circuitType,
                            "curveName" := "bn254", "packageName" := packageName,
                            "provingScheme" := "groth16"]
  {
    created := false;
    scaffolded := [];
    var entries: seq<string>;
    match state {
      case Absent =>
        created := true;
        entries := [];
      case NotADirectory =>
        return Exit1("File exists and is not a directory, aborting."), created, scaffolded;
      case Directory(es) =>
        entries := es;
    }
    if |entries| > 0 && !confirmed {
      return Exit1("Aborting."), created, scaffolded;
    }
    var context := map["circuitName" := circuitName, "circuitType" := circuitType];
    if circuitType == "gnark" {
      context := context["curveName" := "bn254"]["packageName" := packageName]["provingScheme" := "groth16"];
    } else {
      return Exit1("Sorry, " + circuitType + " is not yet supported."), created, scaffolded;
    }
    scaffolded := scaffolded + ["common"];
    scaffolded := scaffolded + [circuitType];
    result := Scaffolded(context);
  }
}
