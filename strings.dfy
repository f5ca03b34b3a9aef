/** The PHP string built-ins the exporter relies on, restated on `seq<char>`. */
module Strings {

  /** PHP's `empty()` applied to a string: true for "" and for "0". */
  predicate PhpEmpty(s: string) {
    s == "" || s == "0"
  }

  /** `strtolower` on one character (ASCII letters only). */
  function LowerChar(c: char): char {
    if 'A' <= c <= 'Z' then (c as int + 32) as char else c
  }

  /** `strtolower`: lower-cases the ASCII letters and keeps every other character. */
  function Lower(s: string): (r: string)
    ensures |r| == |s|
    ensures forall i :: 0 <= i < |s| ==> r[i] == LowerChar(s[i])
  {
    seq(|s|, i requires 0 <= i < |s| => LowerChar(s[i]))
  }

  /** Lower-casing twice is lower-casing once. */
  lemma LowerIdempotent(s: string)
    ensures Lower(Lower(s)) == Lower(s)
  {
    assert forall i :: 0 <= i < |s| ==> Lower(Lower(s))[i] == Lower(s)[i];
  }

  /** `s` begins with `p` (the `substr($s, 0, |p|) === p` test). */
  predicate StartsWith(s: string, p: string) {
    |p| <= |s| && s[..|p|] == p
  }

  /** `strpos($s, $p) !== false` in PHP 8: `p` occurs in `s`; the empty needle always does. */
  predicate Contains(s: string, p: string)
    decreases |s|
  {
    StartsWith(s, p) || (|s| > 0 && Contains(s[1..], p))
  }

  /** An occurrence of `p` at any position makes `Contains` true. */
  lemma {:induction false} ContainsAt(s: string, p: string, i: nat)
    requires i + |p| <= |s| && s[i..i + |p|] == p
    ensures Contains(s, p)
    decreases i
  {
    if i == 0 {
      assert s[..|p|] == p;
    } else {
      assert s[1..][i - 1..i - 1 + |p|] == s[i..i + |p|];
      ContainsAt(s[1..], p, i - 1);
    }
  }

  /** A needle found in a prefix is found in the whole string. */
  lemma {:induction false} ContainsInPrefix(a: string, b: string, p: string)
    requires Contains(a, p) && a <= b
    ensures Contains(b, p)
    decreases |a|
  {
    if StartsWith(a, p) {
      assert b[..|p|] == a[..|p|];
    } else {
      ContainsInPrefix(a[1..], b[1..], p);
    }
  }

  /** `p` occurs in `a + p + b`. */
  lemma ContainsInfix(a: string, p: string, b: string)
    ensures Contains(a + p + b, p)
  {
    var s := a + p + b;
    assert s[|a|..|a| + |p|] == p;
    ContainsAt(s, p, |a|);
  }

  /** An occurrence found by `Contains` has a position. */
  lemma {:induction false} ContainsIndex(s: string, p: string) returns (i: nat)
    requires Contains(s, p)
    ensures i + |p| <= |s| && s[i..i + |p|] == p
    decreases |s|
  {
    if StartsWith(s, p) {
      i := 0;
    } else {
      var j := ContainsIndex(s[1..], p);
      assert s[1..][j..j + |p|] == s[j + 1..j + 1 + |p|];
      i := j + 1;
    }
  }

  /** A needle found in the middle piece is found in the whole. */
  lemma ContainsWithin(a: string, m: string, b: string, p: string)
    requires Contains(m, p)
    ensures Contains(a + m + b, p)
  {
    var i := ContainsIndex(m, p);
    var s := a + m + b;
    assert s[|a| + i..|a| + i + |p|] == m[i..i + |p|];
    ContainsAt(s, p, |a| + i);
  }

  /** Appending keeps an occurrence. */
  lemma ContainsExtend(a: string, b: string, p: string)
    requires Contains(a, p)
    ensures Contains(a + b, p)
  {
    assert (a + b)[..|a|] == a;
    ContainsInPrefix(a, a + b, p);
  }

  /** Prepending keeps an occurrence. */
  lemma ContainsPrepend(a: string, b: string, p: string)
    requires Contains(b, p)
    ensures Contains(a + b, p)
  {
    var i := ContainsIndex(b, p);
    assert (a + b)[|a| + i..|a| + i + |p|] == b[i..i + |p|];
    ContainsAt(a + b, p, |a| + i);
  }

  /** Appending is associative; stated over plain variables so that a long concatenation can be
      regrouped without unfolding its parts. */
  lemma AppendAssoc(a: string, b: string, c: string)
    ensures a + b + c == a + (b + c)
  {
  }

  /** Three appends to `o` in a row are one append of their concatenation. */
  lemma AppendAssoc3(o: string, a: string, b: string, c: string)
    ensures o + a + b + c == o + (a + b + c)
  {
    AppendAssoc(o, a, b);
    AppendAssoc(o, a + b, c);
  }

  /** Four appends to `o` in a row are one append of their concatenation. */
  lemma AppendAssoc4(o: string, a: string, b: string, c: string, d: string)
    ensures o + a + b + c + d == o + (a + b + c + d)
  {
    AppendAssoc(o, a, b);
    AppendAssoc(o, a + b, c);
    AppendAssoc(o, a + b + c, d);
  }

  /** `str_replace($pat, $rep, $s)`: every occurrence of `pat`, scanning left to right without
      overlap, is replaced by `rep`. */
  function Replace(s: string, pat: string, rep: string): string
    requires |pat| > 0
    decreases |s|
  {
    if |s| < |pat| then s
    else if s[..|pat|] == pat then rep + Replace(s[|pat|..], pat, rep)
    else [s[0]] + Replace(s[1..], pat, rep)
  }

  /** A string without the pattern is left as it is. */
  lemma {:induction false} ReplaceAbsent(s: string, pat: string, rep: string)
    requires |pat| > 0 && !Contains(s, pat)
    ensures Replace(s, pat, rep) == s
    decreases |s|
  {
    if |s| >= |pat| {
      ReplaceAbsent(s[1..], pat, rep);
      assert [s[0]] + s[1..] == s;
    }
  }

  /** A prefix none of whose characters starts the pattern passes through unchanged. */
  lemma {:induction false} ReplaceSkip(a: string, b: string, pat: string, rep: string)
    requires |pat| > 0
    requires forall k :: 0 <= k < |a| ==> a[k] != pat[0]
    ensures Replace(a + b, pat, rep) == a + Replace(b, pat, rep)
    decreases |a|
  {
    if a == [] {
      assert a + b == b;
    } else {
      var s := a + b;
      if |s| < |pat| {
        assert Replace(s, pat, rep) == s;
        assert Replace(b, pat, rep) == b;
      } else {
        assert s[..|pat|][0] == a[0];
        assert s[..|pat|] != pat;
        assert s[1..] == a[1..] + b;
        ReplaceSkip(a[1..], b, pat, rep);
        calc {
          Replace(s, pat, rep);
          [s[0]] + Replace(a[1..] + b, pat, rep);
          [a[0]] + (a[1..] + Replace(b, pat, rep));
          { assert [a[0]] + a[1..] == a; }
          a + Replace(b, pat, rep);
        }
      }
    }
  }

  /** A prefix at none of whose positions the pattern starts passes through unchanged. */
  lemma {:induction false} ReplaceSkipNoMatch(a: string, b: string, pat: string, rep: string)
    requires |pat| > 0
    requires forall k :: 0 <= k < |a| ==> !StartsWith((a + b)[k..], pat)
    ensures Replace(a + b, pat, rep) == a + Replace(b, pat, rep)
    decreases |a|
  {
    var s := a + b;
    if a == [] {
      assert s == b;
    } else if |s| < |pat| {
      assert Replace(s, pat, rep) == s;
      assert Replace(b, pat, rep) == b;
    } else {
      assert s[0..] == s;
      assert s[..|pat|] != pat;
      assert s[1..] == a[1..] + b;
      forall k | 0 <= k < |a[1..]|
        ensures !StartsWith((a[1..] + b)[k..], pat)
      {
        assert (a[1..] + b)[k..] == s[k + 1..];
      }
      ReplaceSkipNoMatch(a[1..], b, pat, rep);
      calc {
        Replace(s, pat, rep);
        [s[0]] + Replace(a[1..] + b, pat, rep);
        [a[0]] + (a[1..] + Replace(b, pat, rep));
        { assert [a[0]] + a[1..] == a; }
        a + Replace(b, pat, rep);
      }
    }
  }

  /** A string with a single occurrence of `pat` has that one occurrence replaced. */
  lemma ReplaceOnce(pre: string, post: string, pat: string, rep: string)
    requires |pat| > 0
    requires forall k :: 0 <= k < |pre| ==> !StartsWith((pre + pat + post)[k..], pat)
    requires !Contains(post, pat)
    ensures Replace(pre + pat + post, pat, rep) == pre + rep + post
  {
    assert pre + pat + post == pre + (pat + post);
    ReplaceSkipNoMatch(pre, pat + post, pat, rep);
    ReplaceHead(pat, post, rep);
    ReplaceAbsent(post, pat, rep);
    assert pre + (rep + post) == pre + rep + post;
  }

  /** A string starting with the pattern has its first occurrence replaced there. */
  lemma ReplaceHead(pat: string, b: string, rep: string)
    requires |pat| > 0
    ensures Replace(pat + b, pat, rep) == rep + Replace(b, pat, rep)
  {
    var s := pat + b;
    assert s[..|pat|] == pat;
    assert s[|pat|..] == b;
  }

  /** A pattern that ends the string and is its only possible start is replaced there alone. */
  lemma ReplaceSole(head: string, pat: string, rep: string)
    requires |pat| > 0
    requires forall k :: 0 <= k < |head| ==> head[k] != pat[0]
    ensures Replace(head + pat, pat, rep) == head + rep
  {
    ReplaceSkip(head, pat, pat, rep);
    assert pat + [] == pat;
    ReplaceHead(pat, [], rep);
    assert rep + [] == rep;
  }

  /** A pattern that starts the string and cannot start again is replaced there alone. */
  lemma ReplaceOnlyHead(pat: string, rest: string, rep: string)
    requires |pat| > 0
    requires forall k :: 0 <= k < |rest| ==> rest[k] != pat[0]
    ensures Replace(pat + rest, pat, rep) == rep + rest
  {
    ReplaceHead(pat, rest, rep);
    assert rest + [] == rest;
    ReplaceSkip(rest, [], pat, rep);
  }

  /** With a one-character pattern, replacing commutes with concatenation. */
  lemma {:induction false} ReplaceCharConcat(a: string, b: string, pat: string, rep: string)
    requires |pat| == 1
    ensures Replace(a + b, pat, rep) == Replace(a, pat, rep) + Replace(b, pat, rep)
    decreases |a|
  {
    if a == [] {
      assert a + b == b;
    } else {
      var s := a + b;
      assert s[1..] == a[1..] + b;
      assert s[..1] == a[..1];
      ReplaceCharConcat(a[1..], b, pat, rep);
      if a[..1] == pat {
        assert Replace(a, pat, rep) == rep + Replace(a[1..], pat, rep);
        assert Replace(s, pat, rep) == rep + Replace(a[1..] + b, pat, rep);
      } else {
        assert Replace(a, pat, rep) == [a[0]] + Replace(a[1..], pat, rep);
        assert Replace(s, pat, rep) == [s[0]] + Replace(a[1..] + b, pat, rep);
      }
    }
  }

  /** Replacing a character by text that lacks it leaves no occurrence of that character. */
  lemma {:induction false} ReplaceCharRemoves(s: string, c: char, rep: string)
    requires forall k :: 0 <= k < |rep| ==> rep[k] != c
    ensures forall k :: 0 <= k < |Replace(s, [c], rep)| ==> Replace(s, [c], rep)[k] != c
    decreases |s|
  {
    if |s| >= 1 {
      ReplaceCharRemoves(s[1..], c, rep);
    }
  }

  /** `str_repeat($s, $n)`. */
  function Repeat(s: string, n: nat): string {
    if n == 0 then "" else s + Repeat(s, n - 1)
  }

  /** Repeating two blanks `n` times gives `2n` blanks. */
  lemma {:induction false} RepeatBlanks(n: nat)
    ensures |Repeat("  ", n)| == 2 * n
    ensures forall k :: 0 <= k < 2 * n ==> Repeat("  ", n)[k] == ' '
  {
    if n > 0 {
      RepeatBlanks(n - 1);
    }
  }

  /** Repetition splits: `n + 1` copies are one copy then `n` copies, and `n` copies then one. */
  lemma {:induction false} RepeatSnoc(s: string, n: nat)
    ensures Repeat(s, n + 1) == Repeat(s, n) + s
  {
    if n > 0 {
      RepeatSnoc(s, n - 1);
    }
  }

  predicate IsDigit(c: char) {
    '0' <= c <= '9'
  }

  predicate AllDigits(s: string) {
    forall k :: 0 <= k < |s| ==> IsDigit(s[k])
  }

  /** The value of a decimal digit string (PHP's numeric reading of it). */
  function DigitsValue(s: string): nat
    requires AllDigits(s)
  {
    if s == [] then 0 else DigitsValue(s[..|s| - 1]) * 10 + (s[|s| - 1] as int - '0' as int)
  }

  /** The decimal rendering of a natural number, as PHP's string conversion of an int. */
  function NatToString(n: nat): (r: string)
    ensures |r| > 0 && AllDigits(r)
  {
    if n < 10 then [('0' as int + n) as char]
    else NatToString(n / 10) + [('0' as int + n % 10) as char]
  }

  /** Reading back a rendered number gives the number. */
  lemma {:induction false} NatToStringRoundTrip(n: nat)
    ensures DigitsValue(NatToString(n)) == n
  {
    var r := NatToString(n);
    if n < 10 {
      assert r[..|r| - 1] == [];
    } else {
      NatToStringRoundTrip(n / 10);
      assert r[..|r| - 1] == NatToString(n / 10);
    }
  }
}
