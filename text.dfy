/**
 * String helpers shared by the command-line and library modules: ASCII character
 * classes (the regular expressions of the source use only ASCII classes), prefix
 * tests, JavaScript's `String.prototype.split` on one separator character and its
 * inverse, lexicographic comparison, and a stable insertion sort that stands for
 * `Array.prototype.sort`.
 */
module Text {

  predicate IsUpper(c: char) { 'A' <= c <= 'Z' }
  predicate IsLower(c: char) { 'a' <= c <= 'z' }
  predicate IsLetter(c: char) { IsUpper(c) || IsLower(c) }
  predicate IsDigit(c: char) { '0' <= c <= '9' }
  predicate IsAlnum(c: char) { IsLetter(c) || IsDigit(c) }

  /** The character class `[-a-zA-Z0-9_]`. */
  predicate IsWordChar(c: char) { IsAlnum(c) || c == '_' || c == '-' }

  /** The character class `[-a-zA-Z0-9_.]` used for tags. */
  predicate IsTagChar(c: char) { IsWordChar(c) || c == '.' }

  /** `s` is non-empty and every character is in the class `[-a-zA-Z0-9_]`: the regex `^[-a-zA-Z0-9_]+$`. */
  predicate IsWord(s: string) { |s| > 0 && forall i :: 0 <= i < |s| ==> IsWordChar(s[i]) }

  /** The regex `^[-a-zA-Z0-9_.]+$`. */
  predicate IsTag(s: string) { |s| > 0 && forall i :: 0 <= i < |s| ==> IsTagChar(s[i]) }

  /** ASCII lower-casing of one character. */
  function LowerChar(c: char): (r: char)
    ensures IsUpper(c) ==> IsLower(r) && r as int == c as int + 32
    ensures !IsUpper(c) ==> r == c
  {
    if IsUpper(c) then (c as int + 32) as char else c
  }

  function Lower(s: string): (r: string)
    ensures |r| == |s|
    ensures forall i :: 0 <= i < |s| ==> r[i] == LowerChar(s[i])
  {
    if s == [] then [] else [LowerChar(s[0])] + Lower(s[1..])
  }

  /** Whether JavaScript stores `c` as a surrogate pair: it lies outside the Basic Multilingual Plane. */
  predicate IsAstral(c: char) { c as int > 0xFFFF }

  /**
   * JavaScript's `s.length`: the number of UTF-16 code units, two for each
   * astral character.
   */
  function Utf16Length(s: string): (n: nat)
    ensures |s| <= n <= 2 * |s|
    ensures (forall i :: 0 <= i < |s| ==> !IsAstral(s[i])) ==> n == |s|
  {
    if s == [] then 0 else (if IsAstral(s[0]) then 2 else 1) + Utf16Length(s[1..])
  }

  /** An astral character counts twice. */
  lemma Utf16LengthOfEmoji()
    ensures Utf16Length("\U{1F600}") == 2 && Utf16Length("a\U{1F600}") == 3
  {
    assert "a\U{1F600}"[1..] == "\U{1F600}";
  }

  predicate StartsWith(s: string, prefix: string) {
    |prefix| <= |s| && s[..|prefix|] == prefix
  }

  /** JavaScript's `s.split(sep)` for a one-character separator: never empty, empty pieces kept. */
  function Split(s: string, sep: char): (r: seq<string>)
    ensures |r| >= 1
    ensures forall i :: 0 <= i < |r| ==> sep !in r[i]
  {
    if s == [] then [[]]
    else
      var tail := Split(s[1..], sep);
      if s[0] == sep then [[]] + tail
      else [[s[0]] + tail[0]] + tail[1..]
  }

  /** `parts.join(sep)`. */
  function Join(parts: seq<string>, sep: char): string
    requires |parts| >= 1
  {
    if |parts| == 1 then parts[0] else parts[0] + [sep] + Join(parts[1..], sep)
  }

  lemma {:induction false} SplitPrefix(a: string, b: string, sep: char)
    requires sep !in a
    ensures Split(a + b, sep)[0] == a + Split(b, sep)[0]
    ensures Split(a + b, sep)[1..] == Split(b, sep)[1..]
  {
    if a != [] {
      assert (a + b)[1..] == a[1..] + b;
      SplitPrefix(a[1..], b, sep);
    } else {
      assert a + b == b;
    }
  }

  lemma {:induction false} SplitWithoutSeparator(s: string, sep: char)
    requires sep !in s
    ensures Split(s, sep) == [s]
  {
    if s != [] {
      SplitWithoutSeparator(s[1..], sep);
      assert [s[0]] + s[1..] == s;
    }
  }

  lemma {:induction false} SplitAfterSeparator(a: string, rest: string, sep: char)
    requires sep !in a
    ensures Split(a + [sep] + rest, sep) == [a] + Split(rest, sep)
  {
    assert a + [sep] + rest == a + ([sep] + rest);
    assert ([sep] + rest)[1..] == rest;
    SplitPrefix(a, [sep] + rest, sep);
    var r := Split(a + [sep] + rest, sep);
    assert r[0] == a + [] == a;
    assert r == [r[0]] + r[1..];
  }

  /** Splitting a join gives back the pieces when no piece contains the separator. */
  lemma {:induction false} SplitJoin(parts: seq<string>, sep: char)
    requires |parts| >= 1
    requires forall i :: 0 <= i < |parts| ==> sep !in parts[i]
    ensures Split(Join(parts, sep), sep) == parts
  {
    if |parts| == 1 {
      SplitWithoutSeparator(parts[0], sep);
    } else {
      SplitJoin(parts[1..], sep);
      SplitAfterSeparator(parts[0], Join(parts[1..], sep), sep);
      assert parts == [parts[0]] + parts[1..];
    }
  }

  /** Joining the pieces of a split gives back the string. */
  lemma {:induction false} JoinSplit(s: string, sep: char)
    ensures Join(Split(s, sep), sep) == s
  {
    if s != [] {
      JoinSplit(s[1..], sep);
      var tail := Split(s[1..], sep);
      if s[0] == sep {
        assert ([[]] + tail)[1..] == tail;
      } else {
        assert ([[s[0]] + tail[0]] + tail[1..])[1..] == tail[1..];
        if |tail| > 1 {
          assert tail == [tail[0]] + tail[1..];
        }
      }
    }
  }

  lemma JoinHead(parts: seq<string>, sep: char)
    requires |parts| >= 1 && |parts[0]| > 0
    ensures |Join(parts, sep)| > 0 && Join(parts, sep)[0] == parts[0][0]
  {
  }

  lemma JoinCons(parts: seq<string>, sep: char)
    requires |parts| >= 2
    ensures Join(parts, sep) == parts[0] + ([sep] + Join(parts[1..], sep))
  {
  }

  /** Index of the first occurrence of `c` in `s`. */
  function IndexOf(s: string, c: char): (i: nat)
    requires c in s
    ensures i < |s| && s[i] == c && c !in s[..i]
  {
    if s[0] == c then 0 else 1 + IndexOf(s[1..], c)
  }

  /** The first occurrence is the one with no earlier occurrence. */
  lemma IndexOfAt(s: string, c: char, k: nat)
    requires k < |s| && s[k] == c && c !in s[..k]
    ensures IndexOf(s, c) == k
  {
  }

  /**
   * Three-way lexicographic comparison (a proper prefix is smaller) under an
   * integer key: JavaScript's `<`/`>` on strings (UTF-16 code units) and
   * Node's `Buffer.compare` on bytes.
   */
  function LexCompare<T>(a: seq<T>, b: seq<T>, key: T -> int): (r: int)
    ensures -1 <= r <= 1
    ensures a == b ==> r == 0
  {
    if a == [] && b == [] then 0
    else if a == [] then -1
    else if b == [] then 1
    else if key(a[0]) < key(b[0]) then -1
    else if key(a[0]) > key(b[0]) then 1
    else LexCompare(a[1..], b[1..], key)
  }

  lemma {:induction false} LexAntisymmetric<T>(a: seq<T>, b: seq<T>, key: T -> int)
    ensures LexCompare(a, b, key) == -LexCompare(b, a, key)
  {
    if a != [] && b != [] && key(a[0]) == key(b[0]) {
      LexAntisymmetric(a[1..], b[1..], key);
    }
  }

  lemma {:induction false} LexZeroIsEqual<T>(a: seq<T>, b: seq<T>, key: T -> int)
    requires forall x, y :: key(x) == key(y) ==> x == y
    ensures LexCompare(a, b, key) == 0 <==> a == b
  {
    if a != [] && b != [] && key(a[0]) == key(b[0]) {
      LexZeroIsEqual(a[1..], b[1..], key);
      assert a == [a[0]] + a[1..] && b == [b[0]] + b[1..];
    }
  }

  lemma {:induction false} LexTransitive<T>(a: seq<T>, b: seq<T>, c: seq<T>, key: T -> int)
    requires LexCompare(a, b, key) <= 0 && LexCompare(b, c, key) <= 0
    ensures LexCompare(a, c, key) <= 0
  {
    if a != [] && b != [] && c != [] && key(a[0]) == key(b[0]) == key(c[0]) {
      LexTransitive(a[1..], b[1..], c[1..], key);
    }
  }

  /** `le` is a total preorder on the elements of `s`. */
  ghost predicate TotalPreorderOn<T>(s: seq<T>, le: (T, T) -> bool) {
    (forall x, y :: x in s && y in s ==> le(x, y) || le(y, x)) &&
    (forall x, y, z :: x in s && y in s && z in s && le(x, y) && le(y, z) ==> le(x, z))
  }

  ghost predicate SortedBy<T>(s: seq<T>, le: (T, T) -> bool) {
    forall i, j :: 0 <= i < j < |s| ==> le(s[i], s[j])
  }

  /** Inserts `x` before the first element it is not greater than; elements equal to it stay after it. */
  function Insert<T>(x: T, s: seq<T>, le: (T, T) -> bool): (r: seq<T>)
    ensures multiset(r) == multiset(s) + multiset{x}
    ensures |r| == |s| + 1
  {
    if s == [] || le(x, s[0]) then [x] + s
    else
      assert s == [s[0]] + s[1..];
      [s[0]] + Insert(x, s[1..], le)
  }

  /** `Insert` puts `x` at one position and keeps the order of `s` around it. */
  lemma {:induction false} InsertShape<T>(x: T, s: seq<T>, le: (T, T) -> bool) returns (k: nat)
    ensures k <= |s| && Insert(x, s, le) == s[..k] + [x] + s[k..]
    ensures forall j :: 0 <= j < k ==> !le(x, s[j])
  {
    if s == [] || le(x, s[0]) {
      k := 0;
    } else {
      var k' := InsertShape(x, s[1..], le);
      k := k' + 1;
      assert s[..k] == [s[0]] + s[1..][..k'];
      assert s[k..] == s[1..][k'..];
      assert forall j :: 1 <= j < k ==> s[j] == s[1..][j - 1];
    }
  }

  /**
   * A stable sort with comparator `le` (`Array.prototype.sort` is stable): an
   * element inserted later into the sorted tail came earlier in the input, and
   * `Insert` puts it before the elements equal to it.
   */
  function SortBy<T>(s: seq<T>, le: (T, T) -> bool): (r: seq<T>)
    ensures multiset(r) == multiset(s)
    ensures |r| == |s|
  {
    if s == [] then []
    else
      assert s == [s[0]] + s[1..];
      Insert(s[0], SortBy(s[1..], le), le)
  }

  lemma {:induction false} InsertSorted<T>(x: T, s: seq<T>, le: (T, T) -> bool)
    requires TotalPreorderOn(s + [x], le)
    requires SortedBy(s, le)
    ensures SortedBy(Insert(x, s, le), le)
  {
    if s != [] && !le(x, s[0]) {
      assert s[0] in s + [x];
      assert le(s[0], x);
      var t := s[1..];
      assert TotalPreorderOn(t + [x], le) by {
        forall y | y in t + [x] ensures y in s + [x] {
          if y in t { assert y in s; }
        }
      }
      InsertSorted(x, t, le);
      var it := Insert(x, t, le);
      assert multiset(it) == multiset(t) + multiset{x};
      forall j | 0 <= j < |it| ensures le(s[0], it[j]) {
        assert it[j] in multiset(it);
        if it[j] == x {
        } else {
          assert it[j] in multiset(t);
          var k :| 0 <= k < |t| && t[k] == it[j];
          assert t[k] == s[k + 1];
        }
      }
    }
  }

  lemma {:induction false} SortBySorted<T>(s: seq<T>, le: (T, T) -> bool)
    requires TotalPreorderOn(s, le)
    ensures SortedBy(SortBy(s, le), le)
  {
    if s != [] {
      var t := s[1..];
      assert TotalPreorderOn(t, le) by {
        forall y | y in t ensures y in s { }
      }
      SortBySorted(t, le);
      var st := SortBy(t, le);
      assert TotalPreorderOn(st + [s[0]], le) by {
        forall y | y in st + [s[0]] ensures y in s {
          if y in st {
            assert y in multiset(st);
            assert y in multiset(t);
          }
        }
      }
      InsertSorted(s[0], st, le);
    }
  }
}
