/**
 * The string operations the scraper and the cleaner rely on: `str.strip()`,
 * `str.lower()`, `str.replace(c, '')`, `in` on strings and `"".join(...)`.
 *
 * Character classes are restricted: whitespace is space, tab, newline,
 * carriage return, vertical tab and form feed (Python's `\s` and
 * `str.strip()` also accept U+001C to U+001F and Unicode spaces, which this
 * model leaves out), digits are `0`-`9`, and lower-casing maps only `A`-`Z`.
 */
module Text {

  predicate IsSpace(c: char)
  {
    c == ' ' || c == '\t' || c == '\n' || c == '\r' || c == '\U{B}' || c == '\U{C}'
  }

  predicate IsDigit(c: char)
  {
    '0' <= c <= '9'
  }

  predicate IsAsciiLetter(c: char)
  {
    'a' <= c <= 'z' || 'A' <= c <= 'Z'
  }

  predicate AllSpace(s: string)
  {
    forall i :: 0 <= i < |s| ==> IsSpace(s[i])
  }

  predicate HasDigit(s: string)
  {
    exists i :: 0 <= i < |s| && IsDigit(s[i])
  }

  /** `s.lstrip()`: the suffix left after dropping leading whitespace. */
  function TrimStart(s: string): (r: string)
    ensures |r| <= |s| && r == s[|s| - |r|..]
    ensures AllSpace(s[..|s| - |r|])
    ensures r == [] || !IsSpace(r[0])
  {
    if s != [] && IsSpace(s[0]) then TrimStart(s[1..]) else s
  }

  /** `s.rstrip()`: the prefix left after dropping trailing whitespace. */
  function TrimEnd(s: string): (r: string)
    ensures |r| <= |s| && r == s[..|r|]
    ensures AllSpace(s[|r|..])
    ensures r == [] || !IsSpace(r[|r| - 1])
  {
    if s != [] && IsSpace(s[|s| - 1]) then TrimEnd(s[..|s| - 1]) else s
  }

  /**
   * `s.strip()`: the infix of `s` that neither starts nor ends with
   * whitespace, everything outside it being whitespace.
   */
  function Strip(s: string): (r: string)
    ensures r == [] || (!IsSpace(r[0]) && !IsSpace(r[|r| - 1]))
    ensures r == [] <==> AllSpace(s)
  {
    var t := TrimStart(s);
    var r := TrimEnd(t);
    StripParts(s, |s| - |t|, t, r);
    r
  }

  /** `r` is `s` from `a` on, with only whitespace before and after it. */
  predicate StrippedAt(s: string, r: string, a: int)
  {
    0 <= a <= |s| - |r| && r == s[a..a + |r|] && AllSpace(s[..a]) && AllSpace(s[a + |r|..])
  }

  /** What `strip` keeps is an infix of `s` with only whitespace around it. */
  lemma StripIsInfix(s: string)
    ensures exists a :: StrippedAt(s, Strip(s), a)
  {
    var t := TrimStart(s);
    var r := TrimEnd(t);
    assert Strip(s) == r;
    StripParts(s, |s| - |t|, t, r);
  }

  /** `s` is whitespace, then `r`, then whitespace, `t` being `s` from `a`. */
  lemma StripParts(s: string, a: nat, t: string, r: string)
    requires a <= |s| && t == s[a..] && AllSpace(s[..a]) && (t == [] || !IsSpace(t[0]))
    requires |r| <= |t| && r == t[..|r|] && AllSpace(t[|r|..]) && (r == [] || !IsSpace(r[|r| - 1]))
    ensures r == [] || (!IsSpace(r[0]) && !IsSpace(r[|r| - 1]))
    ensures exists a :: StrippedAt(s, r, a)
    ensures r == [] <==> AllSpace(s)
  {
    assert s[a + |r|..] == t[|r|..];
    assert r == s[a..a + |r|];
    assert StrippedAt(s, r, a);
    if r == [] {
      assert t[|r|..] == t;
      assert s[..a] == s;
    } else {
      assert s[a] == r[0];
    }
  }

  /** `rstrip` of `p` ends no later than any point after which `p` is all whitespace. */
  lemma {:induction false} TrimEndBefore(p: string, j: nat)
    requires j <= |p| && AllSpace(p[j..])
    ensures |TrimEnd(p)| <= j
  {
    if j < |p| {
      var n := |p| - 1;
      assert p[n] == p[j..][n - j];
      assert p[..n][j..] == p[j..][..n - j];
      TrimEndBefore(p[..n], j);
    }
  }

  /** `rstrip` of `p` ends exactly after the last non-whitespace character. */
  lemma TrimEndAt(p: string, j: nat)
    requires 0 < j <= |p| && AllSpace(p[j..]) && !IsSpace(p[j - 1])
    ensures |TrimEnd(p)| == j
  {
    TrimEndBefore(p, j);
  }

  function LowerChar(c: char): char
  {
    if 'A' <= c <= 'Z' then (c as int - 'A' as int + 'a' as int) as char else c
  }

  /** `s.lower()` on ASCII letters: same length, each `A`-`Z` mapped to `a`-`z`. */
  function Lower(s: string): (r: string)
    ensures |r| == |s|
    ensures forall i :: 0 <= i < |s| ==> r[i] == LowerChar(s[i])
    ensures forall i :: 0 <= i < |r| ==> !('A' <= r[i] <= 'Z')
  {
    if s == [] then [] else [LowerChar(s[0])] + Lower(s[1..])
  }

  /** `s.replace(x, '')`: every occurrence of `x` removed, the rest kept in order. */
  function RemoveAll(s: string, x: char): (r: string)
    ensures x !in r
    ensures |r| <= |s|
    ensures forall c :: c != x ==> (c in r <==> c in s)
    ensures x !in s ==> r == s
  {
    if s == [] then [] else (if s[0] == x then [] else [s[0]]) + RemoveAll(s[1..], x)
  }

  lemma {:induction false} RemoveAllAppend(a: string, b: string, x: char)
    ensures RemoveAll(a + b, x) == RemoveAll(a, x) + RemoveAll(b, x)
  {
    if a != [] {
      assert (a + b)[1..] == a[1..] + b;
      RemoveAllAppend(a[1..], b, x);
    } else {
      assert a + b == b;
    }
  }

  /** Python's `sub in s`. */
  predicate Contains(s: string, sub: string)
  {
    exists i :: 0 <= i <= |s| && OccursAt(s, sub, i)
  }

  /** `sub` occurs in `s` at position `i`. */
  predicate OccursAt(s: string, sub: string, i: nat)
  {
    i + |sub| <= |s| && forall k :: 0 <= k < |sub| ==> s[i + k] == sub[k]
  }

  /** `s[..l]` ends with `sub`. */
  predicate EndsAt(s: string, sub: string, l: nat)
  {
    |sub| <= l <= |s| && OccursAt(s, sub, l - |sub|)
  }

  /** `"".join(parts)`. */
  function Concat(parts: seq<string>): string
  {
    if parts == [] then "" else parts[0] + Concat(parts[1..])
  }

  lemma {:induction false} ConcatAllSpace(parts: seq<string>)
    requires forall i :: 0 <= i < |parts| ==> AllSpace(parts[i])
    ensures AllSpace(Concat(parts))
  {
    if parts != [] {
      ConcatAllSpace(parts[1..]);
      var rest := Concat(parts[1..]);
      forall i | 0 <= i < |parts[0] + rest| ensures IsSpace((parts[0] + rest)[i]) {
        if i >= |parts[0]| { assert (parts[0] + rest)[i] == rest[i - |parts[0]|]; }
      }
    }
  }

}
