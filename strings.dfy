/**
 * String helpers shared by the JavaScript and Python parts of the model.
 *
 * Whitespace is the ASCII set (space, tab, line feed, vertical tab, form feed,
 * carriage return); JavaScript's `trim`, Python's `strip` and the regular
 * expression class `\s` also treat some non-ASCII code points as whitespace,
 * which this model does not.
 */
module Strings {
  import opened Wrappers

  predicate IsSpace(c: char) {
    c == ' ' || c == '\t' || c == '\n' || c == '\r' || c == '\U{B}' || c == '\U{C}'
  }

  predicate IsDigit(c: char) { '0' <= c <= '9' }

  function DigitValue(c: char): (d: nat)
    requires IsDigit(c)
    ensures d < 10
  {
    c as int - '0' as int
  }

  function DigitChar(d: nat): (c: char)
    requires d < 10
    ensures IsDigit(c) && DigitValue(c) == d
  {
    ('0' as int + d) as char
  }

  predicate AllSpace(s: string) { forall i :: 0 <= i < |s| ==> IsSpace(s[i]) }

  /** No leading and no trailing whitespace. */
  predicate IsTrimmed(s: string) { s == [] || (!IsSpace(s[0]) && !IsSpace(s[|s| - 1])) }

  function TrimStart(s: string): (r: string)
    ensures |r| <= |s| && r == s[|s| - |r|..]
    ensures r == [] || !IsSpace(r[0])
    ensures forall i :: 0 <= i < |s| - |r| ==> IsSpace(s[i])
  {
    if s != [] && IsSpace(s[0]) then
      var r := TrimStart(s[1..]);
      SuffixOfTail(s, r);
      r
    else s
  }

  function TrimEnd(s: string): (r: string)
    ensures |r| <= |s| && r == s[..|r|]
    ensures r == [] || !IsSpace(r[|r| - 1])
    ensures forall i :: |r| <= i < |s| ==> IsSpace(s[i])
  {
    if s != [] && IsSpace(s[|s| - 1]) then
      var r := TrimEnd(s[..|s| - 1]);
      assert s[..|s| - 1][..|r|] == s[..|r|];
      r
    else s
  }

  /** JavaScript `String.prototype.trim` and Python `str.strip()`. */
  function Trim(s: string): (r: string)
    ensures IsTrimmed(r)
    ensures |r| <= |s|
    ensures r == [] <==> AllSpace(s)
    ensures IsTrimmed(s) ==> r == s
  {
    TrimEnds(s);
    TrimBlank(s);
    TrimOfTrimmed(s);
    TrimEnd(TrimStart(s))
  }

  /** Both ends of the trimmed text are non-space. */
  lemma TrimEnds(s: string)
    ensures IsTrimmed(TrimEnd(TrimStart(s))) && |TrimEnd(TrimStart(s))| <= |s|
  {
    var t := TrimStart(s);
    var r := TrimEnd(t);
    if r != [] {
      assert r[0] == t[0];
    }
  }

  /** Trimming leaves nothing exactly when the text is all whitespace. */
  lemma TrimBlank(s: string)
    ensures TrimEnd(TrimStart(s)) == [] <==> AllSpace(s)
  {
    var t := TrimStart(s);
    var a := |s| - |t|;
    if TrimEnd(t) == [] {
      assert t == [];
    }
    if t != [] {
      assert t[0] == s[a];
    }
  }

  /** Text without outer whitespace is its own trim. */
  lemma TrimOfTrimmed(s: string)
    ensures IsTrimmed(s) ==> TrimEnd(TrimStart(s)) == s
  {
    if IsTrimmed(s) && s != [] {
      assert TrimStart(s) == s;
      assert TrimEnd(s) == s;
    }
  }

  /** Leading whitespace does not change a trim. */
  lemma {:induction false} TrimSkipsSpace(s: string, k: nat)
    requires k <= |s| && AllSpace(s[..k])
    ensures TrimStart(s) == TrimStart(s[k..]) && Trim(s) == Trim(s[k..])
    decreases k
  {
    if k > 0 {
      assert IsSpace(s[0]);
      assert s[1..][..k - 1] == s[1..k];
      TrimSkipsSpace(s[1..], k - 1);
      assert s[1..][k - 1..] == s[k..];
    }
  }

  /** Occurrences of `c` in `s`. */
  function Count(s: string, c: char): nat {
    if s == [] then 0 else (if s[0] == c then 1 else 0) + Count(s[1..], c)
  }

  /** `parts.join(sep)` in JavaScript, `sep.join(parts)` in Python. */
  function Join(parts: seq<string>, sep: string): string {
    if |parts| == 0 then "" else if |parts| == 1 then parts[0] else parts[0] + sep + Join(parts[1..], sep)
  }

  /** Joining non-empty pieces gives the empty string only when there are no pieces. */
  lemma {:induction false} JoinEmpty(parts: seq<string>, sep: string)
    requires forall i :: 0 <= i < |parts| ==> parts[i] != []
    ensures Join(parts, sep) == [] <==> parts == []
  {
    if |parts| > 1 {
      assert |Join(parts, sep)| >= |parts[0]|;
    }
  }

  /**
   * `s.split(c)` for a one-character separator: the pieces between the
   * occurrences of `c`, in order.
   */
  function Split(s: string, c: char): (r: seq<string>)
    ensures |r| >= 1
  {
    if s == [] then [""]
    else
      var rest := Split(s[1..], c);
      if s[0] == c then [""] + rest else [[s[0]] + rest[0]] + rest[1..]
  }

  /** There is one more piece than there are separators. */
  lemma {:induction false} SplitCount(s: string, c: char)
    ensures |Split(s, c)| == Count(s, c) + 1
  {
    if s != [] { SplitCount(s[1..], c); }
  }

  /** No piece contains the separator. */
  lemma {:induction false} SplitPieces(s: string, c: char)
    ensures forall i :: 0 <= i < |Split(s, c)| ==> c !in Split(s, c)[i]
  {
    if s != [] {
      SplitPieces(s[1..], c);
      var rest := Split(s[1..], c);
      if s[0] != c {
        assert c !in rest[0];
        assert c !in [s[0]] + rest[0];
      }
    }
  }

  /** Joining the pieces with the separator gives back the string. */
  lemma {:induction false} SplitJoin(s: string, c: char)
    ensures Join(Split(s, c), [c]) == s
  {
    if s != [] {
      SplitJoin(s[1..], c);
      var rest := Split(s[1..], c);
      assert s == [s[0]] + s[1..];
      if s[0] == c {
        assert Join([""] + rest, [c]) == "" + [c] + Join(rest, [c]);
      } else {
        var r := [[s[0]] + rest[0]] + rest[1..];
        if |rest| == 1 {
          assert Join(rest, [c]) == rest[0];
        } else {
          assert Join(rest, [c]) == rest[0] + [c] + Join(rest[1..], [c]);
          assert r[1..] == rest[1..];
          assert Join(r, [c]) == r[0] + [c] + Join(r[1..], [c]);
        }
      }
    }
  }

  /** The first piece is what precedes the first separator. */
  lemma {:induction false} SplitFirst(s: string, c: char)
    ensures var p := Split(s, c)[0];
      |p| <= |s| && s[..|p|] == p && (|p| == |s| || s[|p|] == c)
  {
    if s != [] {
      SplitFirst(s[1..], c);
      var rest := Split(s[1..], c);
      if s[0] != c {
        assert s[..|rest[0]| + 1] == [s[0]] + s[1..][..|rest[0]|];
      }
    }
  }

  /** The last piece is what follows the last separator, or the whole string when there is none. */
  lemma SplitLast(s: string, c: char)
    ensures var r := Split(s, c); var p := r[|r| - 1];
      |p| <= |s| && s[|s| - |p|..] == p &&
      (|r| == 1 ==> p == s) && (|r| > 1 ==> |p| < |s| && s[|s| - |p| - 1] == c)
  {
    SplitLastSuffix(s, c);
    SplitLastSep(s, c);
    var r := Split(s, c);
    if |r| == 1 {
      assert s[|s| - |s|..] == s;
    }
  }

  /** The last piece is a suffix, and the whole string when it is the only piece. */
  lemma {:induction false} SplitLastSuffix(s: string, c: char)
    ensures var r := Split(s, c); var p := r[|r| - 1];
      |p| <= |s| && s[|s| - |p|..] == p && (|r| == 1 ==> |p| == |s|)
  {
    if s != [] {
      var tail := s[1..];
      var rest := Split(tail, c);
      var p := rest[|rest| - 1];
      SplitLastSuffix(tail, c);
      SplitLastStep(s, c);
      if |rest| == 1 && s[0] != c {
        assert |p| == |tail| && tail[0..] == tail;
        assert [s[0]] + p == s;
      } else {
        SuffixOfTail(s, p);
      }
    }
  }

  /** A suffix of the tail is a suffix of the whole. */
  lemma SuffixOfTail(s: string, p: string)
    requires s != [] && |p| <= |s| - 1 && s[1..][|s| - 1 - |p|..] == p
    ensures s[|s| - |p|..] == p
  {
    assert s[1..][|s| - 1 - |p|..] == s[|s| - |p|..];
  }

  /** When there are several pieces, a separator precedes the last one. */
  lemma {:induction false} SplitLastSep(s: string, c: char)
    ensures var r := Split(s, c); var p := r[|r| - 1];
      |r| > 1 ==> |p| < |s| && s[|s| - |p| - 1] == c
  {
    if s != [] {
      var tail := s[1..];
      var rest := Split(tail, c);
      var p := rest[|rest| - 1];
      SplitLastStep(s, c);
      if |rest| > 1 {
        SplitLastSep(tail, c);
        var k := |tail| - |p| - 1;
        assert 0 <= k && tail[k] == c;
        assert s[k + 1] == tail[k];
      } else if s[0] == c {
        SplitLastSuffix(tail, c);
        assert |p| == |tail|;
      }
    }
  }

  /** How the last piece of a string relates to the last piece of its tail. */
  lemma SplitLastStep(s: string, c: char)
    requires s != []
    ensures var rest := Split(s[1..], c); var r := Split(s, c);
      |r| == |rest| + (if s[0] == c then 1 else 0) &&
      r[|r| - 1] == if |rest| == 1 && s[0] != c then [s[0]] + rest[0] else rest[|rest| - 1]
  {
  }

  predicate StartsWith(s: string, p: string) { |p| <= |s| && s[..|p|] == p }

  /** `p` occurs in `s` at position `i`. */
  predicate MatchesAt(s: string, p: string, i: nat) { i + |p| <= |s| && s[i..i + |p|] == p }

  /** Python's `p in s` and JavaScript's `s.includes(p)`. */
  predicate Contains(s: string, p: string) { exists i: nat | i <= |s| :: MatchesAt(s, p, i) }

  /** The least position in `from..bound` that satisfies `p`: the scan a regular-expression search makes. */
  function FirstFrom(p: nat -> bool, from: nat, bound: nat): (r: Option<nat>)
    decreases bound - from
    ensures r.Some? ==> from <= r.value < bound && p(r.value)
    ensures r.Some? ==> forall j :: from <= j < r.value ==> !p(j)
    ensures r.None? ==> forall j :: from <= j < bound ==> !p(j)
  {
    if from >= bound then None else if p(from) then Some(from) else FirstFrom(p, from + 1, bound)
  }

  /** The position of the first occurrence of `p` in `s`. */
  function IndexOf(s: string, p: string): (r: Option<nat>)
    ensures r.Some? ==> MatchesAt(s, p, r.value) && forall j: nat :: j < r.value ==> !MatchesAt(s, p, j)
    ensures r.None? <==> !Contains(s, p)
  {
    var m := (i: nat) => MatchesAt(s, p, i);
    var r := FirstFrom(m, 0, |s| + 1);
    assert forall j: nat :: m(j) == MatchesAt(s, p, j);
    r
  }

  /** Every occurrence lies at or after the first one. */
  lemma IndexOfLeast(s: string, p: string, j: nat)
    requires MatchesAt(s, p, j)
    ensures IndexOf(s, p).Some? && IndexOf(s, p).value <= j
  {
    assert j <= |s|;
  }

  /** JavaScript `s.replace(p, q)` with a string pattern: only the first occurrence is replaced. */
  function ReplaceFirst(s: string, p: string, q: string): string {
    match IndexOf(s, p)
    case None => s
    case Some(i) => s[..i] + q + s[i + |p|..]
  }

  /** Replacing a leading occurrence by nothing drops it; text without the pattern is left alone. */
  lemma ReplaceFirstCases(s: string, p: string)
    ensures StartsWith(s, p) ==> ReplaceFirst(s, p, "") == s[|p|..]
    ensures !Contains(s, p) ==> ReplaceFirst(s, p, "") == s
  {
    if StartsWith(s, p) {
      assert MatchesAt(s, p, 0);
    }
  }

  function LowerChar(c: char): char {
    if 'A' <= c <= 'Z' then (c as int - 'A' as int + 'a' as int) as char else c
  }

  /** Python `str.lower()`, restricted to the ASCII letters. */
  function Lower(s: string): (r: string)
    ensures |r| == |s| && forall i :: 0 <= i < |s| ==> r[i] == LowerChar(s[i])
  {
    seq(|s|, i requires 0 <= i < |s| => LowerChar(s[i]))
  }

  /** The index of the first non-whitespace character at or after `i` (or `|s|`). */
  function SkipSpace(s: string, i: nat): (k: nat)
    requires i <= |s|
    decreases |s| - i
    ensures i <= k <= |s| && AllSpace(s[i..k]) && (k == |s| || !IsSpace(s[k]))
  {
    if i < |s| && IsSpace(s[i]) then
      var k := SkipSpace(s, i + 1);
      assert s[i..k] == [s[i]] + s[i + 1..k];
      k
    else i
  }

  /** Decimal rendering of a natural number, as JavaScript's template literals print it. */
  function NatToString(n: nat): (r: string)
    ensures r != [] && forall i :: 0 <= i < |r| ==> IsDigit(r[i])
  {
    (if n < 10 then "" else NatToString(n / 10)) + [DigitChar(n % 10)]
  }

  /** The value of a string of decimal digits. */
  function DigitsValue(s: string): nat
    requires forall i :: 0 <= i < |s| ==> IsDigit(s[i])
  {
    if s == [] then 0 else DigitsValue(s[..|s| - 1]) * 10 + DigitValue(s[|s| - 1])
  }

  lemma {:induction false} NatToStringValue(n: nat)
    ensures DigitsValue(NatToString(n)) == n
  {
    var r := NatToString(n);
    if n >= 10 {
      NatToStringValue(n / 10);
      assert r[..|r| - 1] == NatToString(n / 10);
    } else {
      assert r[..|r| - 1] == "";
    }
  }

  /** Distinct numbers are printed differently. */
  lemma NatToStringInjective(a: nat, b: nat)
    requires NatToString(a) == NatToString(b)
    ensures a == b
  {
    NatToStringValue(a);
    NatToStringValue(b);
  }
}
