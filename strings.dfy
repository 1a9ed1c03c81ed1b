/** The .NET string primitives the analysis engine is built on: character
    classes, invariant lower-casing, ordinal case-insensitive comparison,
    `Split` with `RemoveEmptyEntries`, `Trim`, `StartsWith`/`EndsWith`,
    `Contains` and LINQ `Distinct`.

    Characters are modelled over the Latin-1 range (U+0000 to U+00FF): the
    letter, number and white-space classes and the case mapping below are
    the Unicode ones restricted to that range. A character above U+00FF is
    neither a letter nor a number, is not white space and maps to itself. */
module Strings {

  datatype Option<T> = None | Some(value: T)

  /** `char.IsWhiteSpace` and the regular-expression class `\s`. */
  predicate IsSpace(c: char) {
    c == ' ' || c == '\t' || c == '\n' || c == '\U{000B}' || c == '\U{000C}' || c == '\r'
    || c == '\U{0085}' || c == '\U{00A0}'
  }

  /** The regular-expression class `\d` (decimal digits). */
  predicate IsDigit(c: char) {
    '0' <= c <= '9'
  }

  /** The regular-expression class `\p{N}`: decimal digits, superscripts and vulgar fractions. */
  predicate IsNumber(c: char) {
    IsDigit(c) || c == '\U{00B2}' || c == '\U{00B3}' || c == '\U{00B9}'
    || ('\U{00BC}' <= c <= '\U{00BE}')
  }

  /** The regular-expression class `\p{L}`. */
  predicate IsLetter(c: char) {
    ('A' <= c <= 'Z') || ('a' <= c <= 'z')
    || c == '\U{00AA}' || c == '\U{00B5}' || c == '\U{00BA}'
    || ('\U{00C0}' <= c <= '\U{00FF}' && c != '\U{00D7}' && c != '\U{00F7}')
  }

  predicate IsAsciiLetter(c: char) {
    ('A' <= c <= 'Z') || ('a' <= c <= 'z')
  }

  predicate IsAsciiLetterOrDigit(c: char) {
    IsAsciiLetter(c) || IsDigit(c)
  }

  predicate IsUpper(c: char) {
    ('A' <= c <= 'Z') || ('\U{00C0}' <= c <= '\U{00DE}' && c != '\U{00D7}')
  }

  /** `char.ToLowerInvariant`. */
  function LowerChar(c: char): (r: char)
    ensures IsUpper(c) ==> !IsUpper(r) && r != c
    ensures !IsUpper(c) ==> r == c
    ensures IsLetter(r) <==> IsLetter(c)
    ensures IsNumber(r) <==> IsNumber(c)
    ensures IsSpace(r) <==> IsSpace(c)
  {
    if IsUpper(c) then (c as int + 32) as char else c
  }

  /** `string.ToLowerInvariant`: no upper-case letter is left, exactly the
      upper-case letters change, and every character keeps its class. */
  function Lower(s: string): (r: string)
    ensures |r| == |s|
    ensures forall c <- r :: !IsUpper(c)
    ensures forall i :: 0 <= i < |s| ==> (r[i] == s[i] <==> !IsUpper(s[i]))
    ensures forall i :: 0 <= i < |s| ==>
              && (IsLetter(r[i]) <==> IsLetter(s[i]))
              && (IsNumber(r[i]) <==> IsNumber(s[i]))
              && (IsSpace(r[i]) <==> IsSpace(s[i]))
  {
    seq(|s|, i requires 0 <= i < |s| => LowerChar(s[i]))
  }

  /** Lower-casing a string that is already lower case changes nothing. */
  lemma LowerIdempotent(s: string)
    ensures Lower(Lower(s)) == Lower(s)
  {
  }

  lemma LowerAppend(a: string, b: string)
    ensures Lower(a + b) == Lower(a) + Lower(b)
  {
  }

  /** `a.Equals(b, StringComparison.OrdinalIgnoreCase)`. */
  predicate EqualsIgnoreCase(a: string, b: string) {
    Lower(a) == Lower(b)
  }

  /** The case-folded keys of a list of strings, position by position. */
  function Keys(xs: seq<string>): (ks: seq<string>)
    ensures |ks| == |xs|
    ensures forall i :: 0 <= i < |xs| ==> ks[i] == Lower(xs[i])
  {
    seq(|xs|, i requires 0 <= i < |xs| => Lower(xs[i]))
  }

  /** No two elements are equal ignoring case. */
  predicate DistinctIgnoringCase(xs: seq<string>) {
    forall i, j :: 0 <= i < j < |xs| ==> Lower(xs[i]) != Lower(xs[j])
  }

  /** `s.StartsWith(prefix, StringComparison.OrdinalIgnoreCase)`. */
  predicate StartsWithIgnoreCase(s: string, prefix: string) {
    |prefix| <= |s| && EqualsIgnoreCase(s[..|prefix|], prefix)
  }

  /** `s.EndsWith(suffix)` for the ASCII suffixes the engine tests. */
  predicate EndsWith(s: string, suffix: string) {
    |suffix| <= |s| && s[|s| - |suffix|..] == suffix
  }

  /** `string.IsNullOrWhiteSpace` (strings are never null in this model). */
  predicate IsWhiteSpaceOnly(s: string) {
    forall i :: 0 <= i < |s| ==> IsSpace(s[i])
  }

  /** Length of the longest prefix of `s` that holds no separator. */
  function PieceLength(s: string, seps: set<char>): (n: nat)
    ensures n <= |s|
    ensures forall i :: 0 <= i < n ==> s[i] !in seps
    ensures n < |s| ==> s[n] in seps
  {
    if |s| == 0 || s[0] in seps then 0 else 1 + PieceLength(s[1..], seps)
  }

  /** `s.Split(seps, StringSplitOptions.RemoveEmptyEntries)`: the maximal
      separator-free pieces of `s`, in order. */
  function Split(s: string, seps: set<char>): (pieces: seq<string>)
    ensures forall p <- pieces :: |p| > 0
    ensures forall p <- pieces :: forall c <- p :: c !in seps && c in s
    ensures |pieces| <= |s|
    decreases |s|
  {
    if |s| == 0 then []
    else if s[0] in seps then Split(s[1..], seps)
    else
      var n := PieceLength(s, seps);
      var rest := Split(s[n..], seps);
      assert forall p <- rest :: forall c <- p :: c in s by {
        forall p <- rest, c <- p ensures c in s {
          assert c in s[n..];
        }
      }
      [s[..n]] + rest
  }

  /** The characters of `s` that are not separators, in order. */
  function Without(s: string, seps: set<char>): string {
    if |s| == 0 then []
    else (if s[0] in seps then [] else [s[0]]) + Without(s[1..], seps)
  }

  function Concat(pieces: seq<string>): string {
    if pieces == [] then [] else pieces[0] + Concat(pieces[1..])
  }

  lemma {:induction false} WithoutAppend(a: string, b: string, seps: set<char>)
    ensures Without(a + b, seps) == Without(a, seps) + Without(b, seps)
    decreases |a|
  {
    if |a| == 0 {
      assert a + b == b;
    } else {
      assert (a + b)[1..] == a[1..] + b;
      WithoutAppend(a[1..], b, seps);
    }
  }

  /** `Split` loses exactly the separators: gluing its pieces back together
      gives the input with every separator removed. */
  lemma {:induction false} SplitLosesOnlySeparators(s: string, seps: set<char>)
    ensures Concat(Split(s, seps)) == Without(s, seps)
    decreases |s|
  {
    if |s| > 0 {
      if s[0] in seps {
        SplitLosesOnlySeparators(s[1..], seps);
      } else {
        var n := PieceLength(s, seps);
        SplitLosesOnlySeparators(s[n..], seps);
        assert s == s[..n] + s[n..];
        WithoutAppend(s[..n], s[n..], seps);
        NoSeparatorsKept(s[..n], seps);
      }
    }
  }

  lemma {:induction false} NoSeparatorsKept(s: string, seps: set<char>)
    requires forall c <- s :: c !in seps
    ensures Without(s, seps) == s
    decreases |s|
  {
    if |s| > 0 {
      NoSeparatorsKept(s[1..], seps);
    }
  }

  /** Number of leading white-space characters of `s`. */
  function LeadingSpace(s: string): (n: nat)
    ensures n <= |s|
    ensures forall i :: 0 <= i < n ==> IsSpace(s[i])
    ensures n < |s| ==> !IsSpace(s[n])
  {
    if |s| == 0 || !IsSpace(s[0]) then 0 else 1 + LeadingSpace(s[1..])
  }

  /** Number of trailing white-space characters of `s`. */
  function TrailingSpace(s: string): (n: nat)
    ensures n <= |s|
    ensures forall i :: |s| - n <= i < |s| ==> IsSpace(s[i])
    ensures n < |s| ==> !IsSpace(s[|s| - 1 - n])
  {
    if |s| == 0 || !IsSpace(s[|s| - 1]) then 0 else 1 + TrailingSpace(s[..|s| - 1])
  }

  /** `string.Trim()`: the input without its leading and trailing white
      space. The result starts where the leading white space ends, and
      everything after it is white space. */
  function Trim(s: string): (r: string)
    ensures LeadingSpace(s) + |r| <= |s| && r == s[LeadingSpace(s)..LeadingSpace(s) + |r|]
    ensures forall k :: LeadingSpace(s) + |r| <= k < |s| ==> IsSpace(s[k])
    ensures r != [] ==> !IsSpace(r[0]) && !IsSpace(r[|r| - 1])
    ensures r == [] <==> IsWhiteSpaceOnly(s)
  {
    var i := LeadingSpace(s);
    if i == |s| then
      assert s[i..i] == [];
      []
    else
      var j := |s| - TrailingSpace(s);
      assert !IsSpace(s[|s| - 1 - TrailingSpace(s)]);
      assert i < j;
      s[i..j]
  }

  /** `needle` occurs in `s` starting at index `k`. */
  predicate OccursAt(s: string, needle: string, k: nat) {
    k + |needle| <= |s| && s[k..k + |needle|] == needle
  }

  /** An occurrence inside an occurrence is an occurrence. */
  lemma OccursWithin(a: string, b: string, c: string, i: nat, j: nat)
    requires OccursAt(a, b, i) && OccursAt(b, c, j)
    ensures OccursAt(a, c, i + j)
  {
    assert forall k :: 0 <= k < |c| ==> a[i + j + k] == b[j + k] == c[k];
  }

  /** The first piece of a split is a contiguous part of the input. */
  lemma {:induction false} FirstPieceOccurs(s: string, seps: set<char>)
    requires Split(s, seps) != []
    ensures exists k: nat :: OccursAt(s, Split(s, seps)[0], k)
    decreases |s|
  {
    if s[0] in seps {
      FirstPieceOccurs(s[1..], seps);
      var k: nat :| OccursAt(s[1..], Split(s[1..], seps)[0], k);
      assert OccursAt(s, Split(s, seps)[0], k + 1);
    } else {
      assert OccursAt(s, Split(s, seps)[0], 0);
    }
  }

  /** Trimming keeps only characters of its input. */
  lemma TrimKeepsChars(s: string)
    ensures forall c <- Trim(s) :: c in s
  {
    var t := Trim(s);
    forall c <- t ensures c in s {
      var j :| 0 <= j < |t| && t[j] == c;
      assert s[LeadingSpace(s) + j] == c;
    }
  }

  /** The first piece of a split, trimmed, still occurs in the input and holds no separator. */
  lemma TrimmedFirstPiece(s: string, seps: set<char>)
    requires Split(s, seps) != []
    ensures Trim(Split(s, seps)[0]) != "" ==> exists k :: OccursAt(s, Trim(Split(s, seps)[0]), k)
    ensures forall c <- Trim(Split(s, seps)[0]) :: c !in seps
  {
    var first := Split(s, seps)[0];
    FirstPieceOccurs(s, seps);
    var k: nat :| OccursAt(s, first, k);
    OccursWithin(s, first, Trim(first), k, LeadingSpace(first));
    TrimKeepsChars(first);
    assert first in Split(s, seps);
  }

  lemma {:induction false} PieceLengthOfLine(line: string, rest: string, seps: set<char>)
    requires forall c <- line :: c !in seps
    requires rest != [] && rest[0] in seps
    ensures PieceLength(line + rest, seps) == |line|
    decreases |line|
  {
    if line != [] {
      assert (line + rest)[1..] == line[1..] + rest;
      PieceLengthOfLine(line[1..], rest, seps);
    } else {
      assert line + rest == rest;
    }
  }

  /** A non-empty, separator-free string splits into itself alone. */
  lemma {:induction false} SplitOfOnePiece(s: string, seps: set<char>)
    requires s != [] && forall c <- s :: c !in seps
    ensures Split(s, seps) == [s]
  {
    assert forall i :: 0 <= i < |s| ==> s[i] in s;
    assert s[..|s|] == s && s[|s|..] == [];
  }

  /** A prefix that already holds a separator, or is followed by one, keeps
      its first piece length when more text follows. */
  lemma {:induction false} PieceLengthOfPrefix(a: string, rest: string, seps: set<char>)
    requires PieceLength(a, seps) < |a| || (rest != [] && rest[0] in seps)
    ensures PieceLength(a + rest, seps) == PieceLength(a, seps)
    decreases |a|
  {
    if a == [] {
      assert a + rest == rest;
    } else if a[0] !in seps {
      assert (a + rest)[1..] == a[1..] + rest;
      PieceLengthOfPrefix(a[1..], rest, seps);
    }
  }

  /** A separator splits a string into the pieces before it followed by
      the pieces after it: with `SplitOfOnePiece`, this fixes `Split`. */
  lemma {:induction false} SplitAtSeparator(a: string, c: char, b: string, seps: set<char>)
    requires c in seps
    ensures Split(a + [c] + b, seps) == Split(a, seps) + Split(b, seps)
    decreases |a|, 1
  {
    if a == [] {
      assert (a + [c] + b)[1..] == b;
    } else if a[0] in seps {
      assert (a + [c] + b)[1..] == a[1..] + [c] + b;
      SplitAtSeparator(a[1..], c, b, seps);
    } else {
      SplitAtSeparatorAfterPiece(a, c, b, seps);
    }
  }

  /** The case of `SplitAtSeparator` where `a` starts with a piece. */
  lemma {:induction false} SplitAtSeparatorAfterPiece(a: string, c: char, b: string, seps: set<char>)
    requires c in seps && a != [] && a[0] !in seps
    ensures Split(a + [c] + b, seps) == Split(a, seps) + Split(b, seps)
    decreases |a|, 0
  {
    var rest := [c] + b;
    var n := PieceLength(a, seps);
    PieceSplitOff(a, rest, seps);
    assert a + [c] + b == a + rest;
    assert a[n..] + [c] + b == a[n..] + rest;
    SplitAtSeparator(a[n..], c, b, seps);
    assert Split(a, seps) == [a[..n]] + Split(a[n..], seps);
  }

  /** Splitting `a + rest`, where `rest` starts with a separator, takes off
      the first piece of `a` and goes on with the remainder. */
  lemma PieceSplitOff(a: string, rest: string, seps: set<char>)
    requires a != [] && a[0] !in seps && rest != [] && rest[0] in seps
    ensures PieceLength(a, seps) >= 1
    ensures Split(a + rest, seps)
         == [a[..PieceLength(a, seps)]] + Split(a[PieceLength(a, seps)..] + rest, seps)
  {
    var t := a + rest;
    var n := PieceLength(a, seps);
    PieceLengthOfPrefix(a, rest, seps);
    assert t[0] == a[0];
    assert Split(t, seps) == [t[..n]] + Split(t[n..], seps);
    assert t[..n] == a[..n];
    assert t[n..] == a[n..] + rest;
  }

  /** Separators in front of a string add no piece. */
  lemma {:induction false} SplitSkipsLeadingSeparators(b: string, s: string, seps: set<char>)
    requires forall c <- b :: c in seps
    ensures Split(b + s, seps) == Split(s, seps)
    decreases |b|
  {
    if b != [] {
      assert b[0] in b;
      assert (b + s)[1..] == b[1..] + s;
      assert forall c <- b[1..] :: c in b;
      SplitSkipsLeadingSeparators(b[1..], s, seps);
    } else {
      assert b + s == s;
    }
  }

  /** A separator-free, non-empty prefix ended by a separator is the first piece. */
  lemma FirstPieceOfLine(line: string, rest: string, seps: set<char>)
    requires line != [] && forall c <- line :: c !in seps
    requires rest != [] && rest[0] in seps
    ensures Split(line + rest, seps) != [] && Split(line + rest, seps)[0] == line
  {
    PieceLengthOfLine(line, rest, seps);
    assert (line + rest)[..|line|] == line;
  }

  /** `needle` occurs in `s` at index `k`, ignoring case. */
  predicate OccursAtIgnoreCase(s: string, needle: string, k: nat) {
    k + |needle| <= |s| && EqualsIgnoreCase(s[k..k + |needle|], needle)
  }

  /** Index of the first case-insensitive occurrence of `needle` in `s` at or after `from`. */
  function IndexOfIgnoreCase(s: string, needle: string, from: nat): (r: Option<nat>)
    ensures r.Some? ==> from <= r.value && OccursAtIgnoreCase(s, needle, r.value)
    ensures r.Some? ==> forall k :: from <= k < r.value ==> !OccursAtIgnoreCase(s, needle, k)
    ensures r.None? ==> forall k :: from <= k ==> !OccursAtIgnoreCase(s, needle, k)
    decreases |s| - from
  {
    if from + |needle| > |s| then None
    else if OccursAtIgnoreCase(s, needle, from) then Some(from)
    else IndexOfIgnoreCase(s, needle, from + 1)
  }

  /** `s.Contains(needle, StringComparison.OrdinalIgnoreCase)`. */
  predicate ContainsIgnoreCase(s: string, needle: string) {
    IndexOfIgnoreCase(s, needle, 0).Some?
  }

  /** LINQ `Distinct()` with the default comparer: first occurrences, in order. */
  function Distinct<T(==,!new)>(s: seq<T>): (r: seq<T>)
    ensures forall x :: x in r <==> x in s
    ensures forall i, j :: 0 <= i < j < |r| ==> r[i] != r[j]
    decreases |s|
  {
    if s == [] then []
    else
      var prior := Distinct(s[..|s| - 1]);
      var x := s[|s| - 1];
      assert forall y :: y in s <==> y in s[..|s| - 1] || y == x by {
        assert s == s[..|s| - 1] + [x];
      }
      if x in prior then prior else prior + [x]
  }

  /** `string.Join(separator, items)`. */
  function Join(separator: string, items: seq<string>): string {
    if items == [] then []
    else if |items| == 1 then items[0]
    else items[0] + separator + Join(separator, items[1..])
  }

  /** Every joined item occurs, as a contiguous piece, in the joined string. */
  lemma {:induction false} JoinContainsItems(separator: string, items: seq<string>, k: nat)
    requires k < |items|
    ensures exists off :: OccursAt(Join(separator, items), items[k], off)
    decreases |items|
  {
    var j := Join(separator, items);
    if |items| == 1 || k == 0 {
      assert OccursAt(j, items[k], 0);
    } else {
      JoinContainsItems(separator, items[1..], k - 1);
      var rest := Join(separator, items[1..]);
      var off: nat :| OccursAt(rest, items[1..][k - 1], off);
      var head := items[0] + separator;
      assert j == head + rest;
      assert j[|head| + off..|head| + off + |items[k]|] == rest[off..off + |items[k]|];
      assert OccursAt(j, items[k], |head| + off);
    }
  }
}
