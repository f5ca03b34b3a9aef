/** Dedicated matchers for the five regular expressions of the exporter. Each one follows PCRE's
    leftmost, greedy search for its pattern; `.` never crosses a newline, a negated class does. */
module Patterns {
  import opened Wrappers
  import opened Strings

  /** The first index `j >= i` holding a character of `cs`, or `|s|` when there is none. */
  function FindOneOf(s: string, i: nat, cs: set<char>): (j: nat)
    requires i <= |s|
    ensures i <= j <= |s|
    ensures j < |s| ==> s[j] in cs
    ensures forall k :: i <= k < j ==> s[k] !in cs
    decreases |s| - i
  {
    if i == |s| || s[i] in cs then i else FindOneOf(s, i + 1, cs)
  }

  /** `FindOneOf` is characterised by its result: no character of `cs` before `j`, and `j` is the
      end or holds one. */
  lemma {:induction false} FindOneOfIs(s: string, i: nat, j: nat, cs: set<char>)
    requires i <= j <= |s|
    requires forall k :: i <= k < j ==> s[k] !in cs
    requires j == |s| || s[j] in cs
    ensures FindOneOf(s, i, cs) == j
    decreases j - i
  {
    if i < j {
      FindOneOfIs(s, i + 1, j, cs);
    }
  }

  /** The end of the line that contains position `i`. */
  function LineEnd(s: string, i: nat): nat
    requires i <= |s|
  {
    FindOneOf(s, i, {'\n'})
  }

  /** The first index `j >= i` that is not a decimal digit, or `|s|`. */
  function DigitEnd(s: string, i: nat): (j: nat)
    requires i <= |s|
    ensures i <= j <= |s|
    ensures j < |s| ==> !IsDigit(s[j])
    ensures forall k :: i <= k < j ==> IsDigit(s[k])
    decreases |s| - i
  {
    if i == |s| || !IsDigit(s[i]) then i else DigitEnd(s, i + 1)
  }

  // ---------------------------------------------------------------------------------------
  // xmindtomd.php:550  /^\[\([^>]+\>.*\)\]$/m  (a manual reference)

  /** The match attempted at the start of `s` (a line start): "[(", one or more characters other
      than '>' (newlines allowed), '>', then the rest of that line, which must end with ")]". */
  predicate ManualRefStart(s: string) {
    && |s| >= 2 && s[0] == '[' && s[1] == '('
    && var g := FindOneOf(s, 2, {'>'});
    && 2 < g < |s|
    && var e := LineEnd(s, g + 1);
    && e >= g + 3 && s[e - 2] == ')' && s[e - 1] == ']'
  }

  /** `i` is where a line starts: the beginning of the text or just after a newline. */
  predicate LineStart(s: string, i: int) {
    0 <= i <= |s| && (i == 0 || s[i - 1] == '\n')
  }

  /** `preg_match` of the manual-reference pattern: thanks to `/m`, the attempt is made at every
      line start, and each attempt depends only on the text from there on. */
  predicate IsManualReference(s: string) {
    exists i :: 0 <= i <= |s| && LineStart(s, i) && ManualRefStart(s[i..])
  }

  /** A single-line title `[(name>text)]` is a manual reference. */
  lemma ManualReferenceLine(name: string, text: string)
    requires |name| > 0 && forall k :: 0 <= k < |name| ==> name[k] != '>'
    requires forall k :: 0 <= k < |text| ==> text[k] != '\n'
    ensures IsManualReference("[(" + name + ">" + text + ")]")
  {
    var s := "[(" + name + ">" + text + ")]";
    ManualRefStartLine(name, text);
    assert s[0..] == s;
    assert 0 <= 0 <= |s| && LineStart(s, 0) && ManualRefStart(s[0..]);
  }

  lemma ManualRefStartLine(name: string, text: string)
    requires |name| > 0 && forall k :: 0 <= k < |name| ==> name[k] != '>'
    requires forall k :: 0 <= k < |text| ==> text[k] != '\n'
    ensures ManualRefStart("[(" + name + ">" + text + ")]")
  {
    var s := "[(" + name + ">" + text + ")]";
    var g := 2 + |name|;
    assert s[0] == '[' && s[1] == '(';
    assert s[2..g] == name;
    assert s[g] == '>';
    assert s[g + 1..] == text + ")]";
    FindOneOfIs(s, 2, g, {'>'});
    assert forall k :: g + 1 <= k < |s| ==> s[k] == (text + ")]")[k - g - 1];
    FindOneOfIs(s, g + 1, |s|, {'\n'});
    assert s[|s| - 2] == ')' && s[|s| - 1] == ']';
    assert ManualRefStart(s);
  }

  /** Because of the `/m` flag, a manual-reference line anywhere in a title qualifies it:
      whatever lines precede it. */
  lemma ManualReferenceAnyLine(x: string, y: string)
    requires IsManualReference(y)
    ensures IsManualReference(x + "\n" + y)
  {
    var s := x + "\n" + y;
    var i :| 0 <= i <= |y| && LineStart(y, i) && ManualRefStart(y[i..]);
    var j := |x| + 1 + i;
    assert s[j..] == y[i..];
    if i == 0 {
      assert s[j - 1] == '\n';
    } else {
      assert s[j - 1] == y[i - 1];
    }
    assert 0 <= j <= |s| && LineStart(s, j) && ManualRefStart(s[j..]);
  }

  // ---------------------------------------------------------------------------------------
  // xmindtomd.php:674  /([^|]*)\|\|([^|]*)\|\|(.*)/  replaced by "\1 <wrap dugp_red>**\2**</wrap> \3"

  /** A match: group 1 is `s[start..q]`, group 2 `s[q + 2..r]`, group 3 `s[r + 2..end]`. */
  datatype Span = Span(start: nat, q: nat, r: nat, end: nat)

  /** The match attempted at `p`: the first '|' after `p` and the next one must each be doubled,
      and group 3 runs to the end of the line. */
  function HighlightAt(s: string, p: nat): (m: Option<Span>)
    requires p <= |s|
    ensures m.Some? ==> p == m.value.start <= m.value.q && m.value.q + 2 <= m.value.r
                        && m.value.r + 2 <= m.value.end <= |s|
  {
    var q := FindOneOf(s, p, {'|'});
    if q + 1 < |s| && s[q + 1] == '|' then
      var r := FindOneOf(s, q + 2, {'|'});
      if r + 1 < |s| && s[r + 1] == '|' then Some(Span(p, q, r, LineEnd(s, r + 2)))
      else None
    else None
  }

  /** The leftmost match at or after `p`. */
  function FirstHighlight(s: string, p: nat): (m: Option<Span>)
    requires p <= |s|
    ensures m.Some? ==> p <= m.value.start <= m.value.q && m.value.q + 2 <= m.value.r
                        && m.value.r + 2 <= m.value.end <= |s|
    decreases |s| - p
  {
    if HighlightAt(s, p).Some? then HighlightAt(s, p)
    else if p == |s| then None
    else FirstHighlight(s, p + 1)
  }

  /** The replacement text for one match. */
  function HighlightText(s: string, m: Span): string
    requires m.start <= m.q && m.q + 2 <= m.r && m.r + 2 <= m.end <= |s|
  {
    s[m.start..m.q] + " <wrap dugp_red>**" + s[m.q + 2..m.r] + "**</wrap> " + s[m.r + 2..m.end]
  }

  /** `preg_replace` of the partial-highlight pattern: every match, left to right. */
  function Highlight(s: string): string
    decreases |s|
  {
    match FirstHighlight(s, 0)
    case None => s
    case Some(m) => s[..m.start] + HighlightText(s, m) + Highlight(s[m.end..])
  }

  /** A text without '|' has nothing to highlight. */
  lemma HighlightNoPipe(s: string)
    requires forall k :: 0 <= k < |s| ==> s[k] != '|'
    ensures Highlight(s) == s
  {
    NoPipeNoMatch(s, 0);
  }

  lemma {:induction false} NoPipeNoMatch(s: string, p: nat)
    requires p <= |s|
    requires forall k :: 0 <= k < |s| ==> s[k] != '|'
    ensures FirstHighlight(s, p).None?
    decreases |s| - p
  {
    if p < |s| {
      NoPipeNoMatch(s, p + 1);
    }
  }

  /** One `pre||mid||post` segment on a single line: `mid` is wrapped in the red bold span and
      the surrounding text is kept, with one blank on each side of the span. */
  lemma HighlightSegment(pre: string, mid: string, post: string)
    requires forall k :: 0 <= k < |pre| ==> pre[k] != '|'
    requires forall k :: 0 <= k < |mid| ==> mid[k] != '|'
    requires forall k :: 0 <= k < |post| ==> post[k] != '|' && post[k] != '\n'
    ensures Highlight(pre + "||" + mid + "||" + post)
            == pre + " <wrap dugp_red>**" + mid + "**</wrap> " + post
  {
    var m := HighlightSegmentMatch(pre, mid, post);
    HighlightWhole(pre + "||" + mid + "||" + post, m);
    HighlightSegmentText(pre, mid, post, m);
  }

  /** A match that covers the whole text leaves only its replacement. */
  lemma HighlightWhole(s: string, m: Span)
    requires m.start == 0 && m.end == |s| && FirstHighlight(s, 0) == Some(m)
    ensures Highlight(s) == HighlightText(s, m)
  {
    var rest := s[m.end..];
    assert rest == [];
    HighlightNoPipe(rest);
    assert Highlight(s) == s[..m.start] + HighlightText(s, m) + Highlight(rest);
    assert s[..m.start] == [];
  }

  lemma HighlightSegmentText(pre: string, mid: string, post: string, m: Span)
    requires m == Span(0, |pre|, |pre| + 2 + |mid|, |pre + "||" + mid + "||" + post|)
    ensures HighlightText(pre + "||" + mid + "||" + post, m)
            == pre + " <wrap dugp_red>**" + mid + "**</wrap> " + post
  {
    var s := pre + "||" + mid + "||" + post;
    assert s[m.start..m.q] == pre;
    assert s[m.q + 2..m.r] == mid;
    assert s[m.r + 2..m.end] == post;
  }

  /** Where the three parts and the two `||` of a segment lie. */
  lemma SegmentChars(pre: string, mid: string, post: string)
    ensures var s := pre + "||" + mid + "||" + post;
            var q := |pre|;
            var r := |pre| + 2 + |mid|;
            && |s| == r + 2 + |post|
            && (forall k :: 0 <= k < q ==> s[k] == pre[k])
            && s[q] == '|' && s[q + 1] == '|'
            && (forall k :: q + 2 <= k < r ==> s[k] == mid[k - q - 2])
            && s[r] == '|' && s[r + 1] == '|'
            && (forall k :: r + 2 <= k < |s| ==> s[k] == post[k - r - 2])
  {
  }

  /** The segment is matched whole, at its start. */
  lemma HighlightSegmentMatch(pre: string, mid: string, post: string) returns (m: Span)
    requires forall k :: 0 <= k < |pre| ==> pre[k] != '|'
    requires forall k :: 0 <= k < |mid| ==> mid[k] != '|'
    requires forall k :: 0 <= k < |post| ==> post[k] != '|' && post[k] != '\n'
    ensures m == Span(0, |pre|, |pre| + 2 + |mid|, |pre + "||" + mid + "||" + post|)
    ensures FirstHighlight(pre + "||" + mid + "||" + post, 0) == Some(m)
  {
    var s := pre + "||" + mid + "||" + post;
    var q := |pre|;
    var r := |pre| + 2 + |mid|;
    SegmentChars(pre, mid, post);
    FindOneOfIs(s, 0, q, {'|'});
    FindOneOfIs(s, q + 2, r, {'|'});
    FindOneOfIs(s, r + 2, |s|, {'\n'});
    m := Span(0, q, r, |s|);
    assert HighlightAt(s, 0) == Some(m);
  }

  // ---------------------------------------------------------------------------------------
  // xmindtomd.php:653  /^(beforeH2)(.*)(afterH2)$/m  replaced once by "\1 \3"

  /** A line that starts with `b` and, after it, ends with `a`. */
  predicate TitleLine(line: string, b: string, a: string) {
    |line| >= |b| + |a| && line[..|b|] == b && line[|line| - |a|..] == a
  }

  /** The first title line keeps only its delimiters, with one blank between them; the heading
      delimiters of both dialects hold no pattern metacharacter, so they match literally. A newline
      that ends the text starts no further line (PCRE's `^` does not match after it). */
  function ClearFirstTitle(s: string, b: string, a: string): string
    decreases |s|
  {
    var e := LineEnd(s, 0);
    if TitleLine(s[..e], b, a) then b + " " + a + s[e..]
    else if e + 1 >= |s| then s
    else s[..e + 1] + ClearFirstTitle(s[e + 1..], b, a)
  }

  /** Lines before the first title line are kept as they are: a line without a newline that is
      not a title line, followed by a newline, passes through. */
  lemma ClearFirstTitleSkips(line: string, rest: string, b: string, a: string)
    requires forall k :: 0 <= k < |line| ==> line[k] != '\n'
    requires !TitleLine(line, b, a) && |rest| > 0
    ensures ClearFirstTitle(line + "\n" + rest, b, a) == line + "\n" + ClearFirstTitle(rest, b, a)
  {
    var s := line + "\n" + rest;
    assert forall k :: 0 <= k < |line| ==> s[k] == line[k];
    assert s[|line|] == '\n';
    FindOneOfIs(s, 0, |line|, {'\n'});
    assert s[..|line|] == line;
    assert s[..|line| + 1] == line + "\n";
    assert s[|line| + 1..] == rest;
  }

  /** A title line is cleared to its delimiters and the rest of the text is untouched. */
  lemma ClearFirstTitleHits(title: string, rest: string, b: string, a: string)
    requires forall k :: 0 <= k < |b + title + a| ==> (b + title + a)[k] != '\n'
    ensures ClearFirstTitle(b + title + a + "\n" + rest, b, a) == b + " " + a + "\n" + rest
  {
    var line := b + title + a;
    var s := line + "\n" + rest;
    assert forall k :: 0 <= k < |line| ==> s[k] == line[k];
    assert s[|line|] == '\n';
    FindOneOfIs(s, 0, |line|, {'\n'});
    assert s[..|line|] == line;
    assert line[..|b|] == b && line[|line| - |a|..] == a;
    assert s[|line|..] == "\n" + rest;
  }

  // ---------------------------------------------------------------------------------------
  // xmindtomd.php:375  /\[\(P(\d+)\)\]/  (PubMed identifiers, all matches)

  /** A PMID citation `[(P<digits>)]` starts at `p`. */
  predicate PmidAt(s: string, p: nat)
    requires p <= |s|
  {
    && p + 3 <= |s| && s[p] == '[' && s[p + 1] == '(' && s[p + 2] == 'P'
    && var d := DigitEnd(s, p + 3);
    && d > p + 3 && d + 2 <= |s| && s[d] == ')' && s[d + 1] == ']'
  }

  lemma {:induction false} DigitEndIs(s: string, i: nat, j: nat)
    requires i <= j <= |s|
    requires forall k :: i <= k < j ==> IsDigit(s[k])
    requires j == |s| || !IsDigit(s[j])
    ensures DigitEnd(s, i) == j
    decreases j - i
  {
    if i < j {
      DigitEndIs(s, i + 1, j);
    }
  }

  /** The digit groups of all matches at or after `p`, left to right without overlap. */
  function PmidsFrom(s: string, p: nat): seq<string>
    requires p <= |s|
    decreases |s| - p
  {
    if p == |s| then []
    else if PmidAt(s, p) then
      var d := DigitEnd(s, p + 3);
      [s[p + 3..d]] + PmidsFrom(s, d + 2)
    else PmidsFrom(s, p + 1)
  }

  /** Every identifier found is a non-empty digit string. */
  lemma {:induction false} PmidsDigits(s: string, p: nat)
    requires p <= |s|
    ensures forall d :: d in PmidsFrom(s, p) ==> |d| > 0 && AllDigits(d)
    decreases |s| - p
  {
    if p < |s| {
      if PmidAt(s, p) {
        PmidsDigits(s, DigitEnd(s, p + 3) + 2);
      } else {
        PmidsDigits(s, p + 1);
      }
    }
  }

  /** The `$matches[1]` of `preg_match_all`. */
  function Pmids(s: string): seq<string> {
    PmidsFrom(s, 0)
  }

  /** The citation token of a PMID. */
  function PmidToken(d: string): string {
    "[(P" + d + ")]"
  }

  /** What the scan finds is there: every identifier is a digit string whose token occurs. */
  lemma {:induction false} PmidsSound(s: string, p: nat)
    requires p <= |s|
    ensures forall d :: d in PmidsFrom(s, p) ==> Contains(s, PmidToken(d))
    decreases |s| - p
  {
    if p < |s| {
      if PmidAt(s, p) {
        var d := DigitEnd(s, p + 3);
        var digits := s[p + 3..d];
        assert s[p..d + 2] == PmidToken(digits);
        ContainsAt(s, PmidToken(digits), p);
        PmidsSound(s, d + 2);
      } else {
        PmidsSound(s, p + 1);
      }
    }
  }

  /** A piece of a slice of `s` is the corresponding slice of `s`. */
  lemma SliceWithin(s: string, i: nat, w: string, a: nat, b: nat)
    requires i + |w| <= |s| && s[i..i + |w|] == w && a <= b <= |w|
    ensures s[i + a..i + b] == w[a..b]
  {
    var u := s[i + a..i + b];
    assert forall k :: 0 <= k < |u| ==> u[k] == w[a + k];
  }

  /** A token `[(P d)]` at `i` is the match attempted there, with `d` as its digit group. */
  lemma PmidTokenAt(s: string, i: nat, d: string)
    requires i + |PmidToken(d)| <= |s| && s[i..i + |PmidToken(d)|] == PmidToken(d)
    requires |d| > 0 && AllDigits(d)
    ensures PmidAt(s, i) && DigitEnd(s, i + 3) == i + 3 + |d| && s[i + 3..i + 3 + |d|] == d
  {
    var t := PmidToken(d);
    assert t[..3] == "[(P" && t[3..3 + |d|] == d && t[3 + |d|..] == ")]";
    SliceWithin(s, i, t, 0, 3);
    SliceWithin(s, i, t, 3, 3 + |d|);
    SliceWithin(s, i, t, 3 + |d|, |t|);
    assert s[i] == s[i..i + 3][0] && s[i + 1] == s[i..i + 3][1] && s[i + 2] == s[i..i + 3][2];
    assert forall k :: i + 3 <= k < i + 3 + |d| ==> s[k] == s[i + 3..i + 3 + |d|][k - i - 3];
    assert s[i + 3 + |d|] == s[i + 3 + |d|..i + |t|][0];
    assert s[i + 4 + |d|] == s[i + 3 + |d|..i + |t|][1];
    DigitEndIs(s, i + 3, i + 3 + |d|);
  }

  /** A match holds one '[' only, at its start. */
  lemma PmidMatchHasOneBracket(s: string, p: nat, i: nat)
    requires p <= |s| && PmidAt(s, p) && p < i < DigitEnd(s, p + 3) + 2
    ensures s[i] != '['
  {
    var e := DigitEnd(s, p + 3);
    if i < p + 3 {
      assert s[i] == s[p..p + 3][i - p];
    } else if i < e {
      assert IsDigit(s[i]);
    } else {
      assert s[i] == s[e..e + 2][i - e];
    }
  }

  /** What is there is found: every token `[(P d)]` at or after the scan position is collected. */
  lemma PmidsComplete(s: string, p: nat, i: nat, d: string)
    requires p <= i && i + |PmidToken(d)| <= |s| && s[i..i + |PmidToken(d)|] == PmidToken(d)
    requires |d| > 0 && AllDigits(d)
    ensures d in PmidsFrom(s, p)
  {
    PmidTokenAt(s, i, d);
    PmidsReach(s, p, i);
  }

  /** The scan from `p` reaches the match at `i`: no earlier match can swallow it, since a match
      holds one '[' only, at its start. */
  lemma {:induction false} PmidsReach(s: string, p: nat, i: nat)
    requires p <= i < |s| && PmidAt(s, i)
    ensures s[i + 3..DigitEnd(s, i + 3)] in PmidsFrom(s, p)
    decreases |s| - p
  {
    var m := s[i + 3..DigitEnd(s, i + 3)];
    if p == i {
      PmidsHead(s, p);
    } else if PmidAt(s, p) {
      PmidNoOverlap(s, p, i);
      var e := DigitEnd(s, p + 3);
      PmidsReach(s, e + 2, i);
      PmidsAfterMatch(s, p, m);
    } else {
      PmidsReach(s, p + 1, i);
      PmidsAfterSkip(s, p, m);
    }
  }

  /** The scan keeps the match it starts at. */
  lemma PmidsHead(s: string, p: nat)
    requires p < |s| && PmidAt(s, p)
    ensures s[p + 3..DigitEnd(s, p + 3)] in PmidsFrom(s, p)
  {
    assert PmidsFrom(s, p)[0] == s[p + 3..DigitEnd(s, p + 3)];
  }

  /** What the scan finds after a match, it finds from the match. */
  lemma PmidsAfterMatch(s: string, p: nat, m: string)
    requires p < |s| && PmidAt(s, p) && m in PmidsFrom(s, DigitEnd(s, p + 3) + 2)
    ensures m in PmidsFrom(s, p)
  {
  }

  /** What the scan finds one position on, it finds from a position that does not match. */
  lemma PmidsAfterSkip(s: string, p: nat, m: string)
    requires p < |s| && !PmidAt(s, p) && m in PmidsFrom(s, p + 1)
    ensures m in PmidsFrom(s, p)
  {
  }

  /** Two matches do not overlap: the next one starts after the end of the first. */
  lemma PmidNoOverlap(s: string, p: nat, i: nat)
    requires p < i < |s| && PmidAt(s, p) && PmidAt(s, i)
    ensures DigitEnd(s, p + 3) + 2 <= i
  {
    assert s[i] == s[i..i + 3][0] == '[';
    if i < DigitEnd(s, p + 3) + 2 {
      PmidMatchHasOneBracket(s, p, i);
    }
  }

  // ---------------------------------------------------------------------------------------
  // xmindtomd.php:426  /\[\([^\)^>]*\)\]/  (citation tokens of the slides, all matches)

  /** A citation token `[(...)]` with no ')', '^' or '>' inside starts at `p`. */
  predicate RefTokenAt(s: string, p: nat)
    requires p <= |s|
  {
    && p + 2 <= |s| && s[p] == '[' && s[p + 1] == '('
    && var x := FindOneOf(s, p + 2, {')', '^', '>'});
    && x + 1 < |s| && s[x] == ')' && s[x + 1] == ']'
  }

  /** The tokens at or after `p`, left to right without overlap (`$matches[0]`). */
  function RefTokensFrom(s: string, p: nat): (r: seq<string>)
    requires p <= |s|
    ensures forall k :: 0 <= k < |r| ==> |r[k]| >= 4 && r[k][..2] == "[(" && r[k][|r[k]| - 2..] == ")]"
    decreases |s| - p
  {
    if p == |s| then []
    else if RefTokenAt(s, p) then
      var x := FindOneOf(s, p + 2, {')', '^', '>'});
      [s[p..x + 2]] + RefTokensFrom(s, x + 2)
    else RefTokensFrom(s, p + 1)
  }

  function RefTokens(s: string): seq<string> {
    RefTokensFrom(s, 0)
  }

  /** Every PMID citation is also a citation token: a PMID found by the scan from `p` makes the
      token list from `p` non-empty. */
  lemma {:induction false} PmidIsRefToken(s: string, p: nat)
    requires p <= |s| && |PmidsFrom(s, p)| > 0
    ensures |RefTokensFrom(s, p)| > 0
    decreases |s| - p
  {
    if PmidAt(s, p) {
      var d := DigitEnd(s, p + 3);
      FindOneOfIs(s, p + 2, d, {')', '^', '>'});
      assert s[d] == ')' && s[d + 1] == ']';
      assert RefTokenAt(s, p);
    } else if RefTokenAt(s, p) {
    } else {
      PmidIsRefToken(s, p + 1);
    }
  }
}
