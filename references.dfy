/** `createPubmedRefNotes`: the bibliography added to both documents once the tree has been read. */
module References {
  import opened Wrappers
  import opened Strings
  import opened Styles
  import opened Patterns
  import opened Render
  import opened RenderFacts

  // ---------------------------------------------------------------------------------------
  // array_unique and sort(SORT_NUMERIC)

  /** `array_unique`: the first occurrence of every value, in order. */
  function Dedup(xs: seq<string>): (r: seq<string>)
    ensures |r| <= |xs|
  {
    if xs == [] then []
    else
      var d := Dedup(xs[..|xs| - 1]);
      if xs[|xs| - 1] in d then d else d + [xs[|xs| - 1]]
  }

  predicate NoDup(xs: seq<string>) {
    forall i, j :: 0 <= i < j < |xs| ==> xs[i] != xs[j]
  }

  /** Deduplication keeps exactly the values of the list, each once, and changes nothing in a
      list without repetitions. */
  lemma {:induction false} DedupSpec(xs: seq<string>)
    ensures NoDup(Dedup(xs))
    ensures forall x :: x in Dedup(xs) <==> x in xs
    ensures NoDup(xs) ==> Dedup(xs) == xs
  {
    if xs != [] {
      var init := xs[..|xs| - 1];
      DedupSpec(init);
      assert xs == init + [xs[|xs| - 1]];
      if NoDup(xs) {
        assert NoDup(init) by {
          forall i, j | 0 <= i < j < |init| ensures init[i] != init[j] {
            assert init[i] == xs[i] && init[j] == xs[j];
          }
        }
        assert xs[|xs| - 1] !in init by {
          forall i | 0 <= i < |init| ensures init[i] != xs[|xs| - 1] {
            assert init[i] == xs[i];
          }
        }
      }
    }
  }

  /** `2` to the power `e`. */
  function Pow2(e: nat): (r: nat)
    ensures r > 0
  {
    if e == 0 then 1 else 2 * Pow2(e - 1)
  }

  /** The number of binary digits of `v`. */
  function BitLength(v: nat): nat {
    if v == 0 then 0 else 1 + BitLength(v / 2)
  }

  /** A double as `SORT_NUMERIC` compares it: a non-negative integer value, or the infinity that
      every value too large for a double becomes. */
  datatype Double = Finite(value: nat) | Infinite

  /** The order of doubles; all infinities compare equal. */
  predicate Le(a: Double, b: Double) {
    b.Infinite? || (a.Finite? && a.value <= b.value)
  }

  /** `v` without its `e` lowest binary digits. */
  function Shift(v: nat, e: nat): nat {
    if e == 0 then v else Shift(v / 2, e - 1)
  }

  /** The `e` lowest binary digits of `v`, as a number. */
  function Low(v: nat, e: nat): nat {
    if e == 0 then 0 else v % 2 + 2 * Low(v / 2, e - 1)
  }

  /** `m` followed by `e` zero binary digits. */
  function Scale(m: nat, e: nat): nat {
    if e == 0 then m else 2 * Scale(m, e - 1)
  }

  /** The double that PHP's string-to-number conversion gives for `v`: `v` itself when it fits
      the 53-bit significand, otherwise `v` rounded to 53 significant bits, half to even; a
      result of `2^1024` or more overflows to infinity. */
  function ToDouble(v: nat): Double {
    if BitLength(v) <= 53 then Finite(v)
    else
      var e := BitLength(v) - 53;
      var q := Shift(v, e);
      var r := Low(v, e);
      var m := if 2 * r > Pow2(e) || (2 * r == Pow2(e) && q % 2 == 1) then q + 1 else q;
      if e + BitLength(m) <= 1024 then Finite(Scale(m, e)) else Infinite
  }

  /** The sort key of a PMID: the double `SORT_NUMERIC` compares. */
  function Key(d: string): Double {
    if AllDigits(d) then ToDouble(DigitsValue(d)) else Finite(0)
  }

  /** `v` has at most `n` binary digits exactly when it is below `2^n`. */
  lemma {:induction false} BitLengthBound(v: nat, n: nat)
    ensures BitLength(v) <= n <==> v < Pow2(n)
  {
    if n > 0 && v > 0 {
      BitLengthBound(v / 2, n - 1);
    }
  }

  /** `Shift` and `Low` split `v` at binary digit `e`: into the quotient and the remainder of the
      division by `2^e`, which `Scale` puts back together. */
  lemma {:induction false} ShiftLowScale(v: nat, e: nat)
    ensures v == Scale(Shift(v, e), e) + Low(v, e)
    ensures Low(v, e) < Pow2(e)
  {
    if e > 0 {
      ShiftLowScale(v / 2, e - 1);
    }
  }

  /** Below `2^53` the conversion is exact. */
  lemma ToDoubleExact(v: nat)
    requires v < Pow2(53)
    ensures ToDouble(v) == Finite(v)
  {
    BitLengthBound(v, 53);
  }

  /** From `2^53` on, `2^n + 1` has no double of its own: it rounds to `2^n`. */
  lemma DoubleTie(n: nat)
    requires 53 <= n < 1024
    ensures ToDouble(Pow2(n) + 1) == ToDouble(Pow2(n)) == Finite(Pow2(n))
  {
    PowerIsDouble(n);
    PowerPlusOneRounds(n);
  }

  /** `2^n` is a double for every `n` below 1024. */
  lemma PowerIsDouble(n: nat)
    requires 53 <= n < 1024
    ensures ToDouble(Pow2(n)) == Finite(Pow2(n))
  {
    var t := Pow2(n);
    var e := n - 52;
    BitLengthOfPow2(n);
    assert BitLength(t) - 53 == e;
    ShiftPow2(n, e);
    BitLengthOfPow2(n - e);
    Pow2Even(e);
    ScalePow2(n - e, e);
    var q := Shift(t, e);
    assert e + BitLength(q) == n + 1;
    assert ToDouble(t) == Finite(Scale(q, e));
  }

  /** `2^n + 1` lies halfway between `2^n` and the next double when `n` is 53, and nearer to `2^n`
      above that; either way it rounds to `2^n`. */
  lemma PowerPlusOneRounds(n: nat)
    requires 53 <= n < 1024
    ensures ToDouble(Pow2(n) + 1) == Finite(Pow2(n))
  {
    var v := Pow2(n) + 1;
    var e := n - 52;
    BitLengthBound(v, n);
    BitLengthBound(v, n + 1);
    assert BitLength(v) - 53 == e;
    ShiftPow2Plus1(n, e);
    BitLengthOfPow2(n - e);
    Pow2Even(n - e);
    Pow2Even(e);
    ScalePow2(n - e, e);
    var q := Shift(v, e);
    assert q % 2 == 0 && 2 * Low(v, e) <= Pow2(e);
    assert e + BitLength(q) == n + 1;
    assert ToDouble(v) == Finite(Scale(q, e));
  }

  lemma BitLengthOfPow2(k: nat)
    ensures BitLength(Pow2(k)) == k + 1
  {
    BitLengthBound(Pow2(k), k);
    BitLengthBound(Pow2(k), k + 1);
  }

  lemma Pow2Even(k: nat)
    requires k >= 1
    ensures Pow2(k) % 2 == 0 && Pow2(k) >= 2
  {
    assert Pow2(k) == 2 * Pow2(k - 1);
  }

  /** Dropping `e` binary digits of `2^k` leaves `2^(k-e)` and drops only zeros. */
  lemma {:induction false} ShiftPow2(k: nat, e: nat)
    requires e <= k
    ensures Shift(Pow2(k), e) == Pow2(k - e) && Low(Pow2(k), e) == 0
    decreases e
  {
    if e > 0 {
      assert Pow2(k) == 2 * Pow2(k - 1);
      ShiftPow2(k - 1, e - 1);
    }
  }

  /** Dropping `e >= 1` binary digits of `2^k + 1` leaves `2^(k-e)` and drops the value 1. */
  lemma ShiftPow2Plus1(k: nat, e: nat)
    requires 1 <= e <= k
    ensures Shift(Pow2(k) + 1, e) == Pow2(k - e) && Low(Pow2(k) + 1, e) == 1
  {
    assert Pow2(k) == 2 * Pow2(k - 1);
    assert (Pow2(k) + 1) / 2 == Pow2(k - 1) && (Pow2(k) + 1) % 2 == 1;
    ShiftPow2(k - 1, e - 1);
  }

  /** Appending `e` zero binary digits to `2^k` gives `2^(k+e)`. */
  lemma {:induction false} ScalePow2(k: nat, e: nat)
    ensures Scale(Pow2(k), e) == Pow2(k + e)
  {
    if e > 0 {
      ScalePow2(k, e - 1);
    }
  }

  /** Inserts `x` before the first element whose key is not smaller, so that elements with
      equal keys keep their order. */
  function Insert(x: string, xs: seq<string>, key: string -> Double): (r: seq<string>)
    ensures multiset(r) == multiset(xs) + multiset{x}
    ensures |r| == |xs| + 1
  {
    if xs == [] then [x]
    else if Le(key(x), key(xs[0])) then [x] + xs
    else
      assert xs == [xs[0]] + xs[1..];
      [xs[0]] + Insert(x, xs[1..], key)
  }

  /** A stable insertion sort by `key`. */
  function SortBy(xs: seq<string>, key: string -> Double): (r: seq<string>)
    ensures multiset(r) == multiset(xs)
    ensures |r| == |xs|
  {
    if xs == [] then []
    else
      assert xs == [xs[0]] + xs[1..];
      Insert(xs[0], SortBy(xs[1..], key), key)
  }

  /** PHP 8's `sort($a, SORT_NUMERIC)`: the stable sort by the double of each value. */
  function SortNumeric(xs: seq<string>): (r: seq<string>) {
    SortBy(xs, Key)
  }

  predicate SortedBy(xs: seq<string>, key: string -> Double) {
    forall i, j :: 0 <= i < j < |xs| ==> Le(key(xs[i]), key(xs[j]))
  }

  predicate AtLeast(xs: seq<string>, b: Double, key: string -> Double) {
    forall k :: 0 <= k < |xs| ==> Le(b, key(xs[k]))
  }

  lemma {:induction false} InsertAtLeast(x: string, xs: seq<string>, b: Double, key: string -> Double)
    requires AtLeast(xs, b, key) && Le(b, key(x))
    ensures AtLeast(Insert(x, xs, key), b, key)
  {
    if xs != [] && !Le(key(x), key(xs[0])) {
      InsertAtLeast(x, xs[1..], b, key);
    }
  }

  lemma {:induction false} InsertSorted(x: string, xs: seq<string>, key: string -> Double)
    requires SortedBy(xs, key)
    ensures SortedBy(Insert(x, xs, key), key)
  {
    if xs != [] {
      if !Le(key(x), key(xs[0])) {
        InsertSorted(x, xs[1..], key);
        InsertAtLeast(x, xs[1..], key(xs[0]), key);
        var r := Insert(x, xs[1..], key);
        assert Insert(x, xs, key) == [xs[0]] + r;
      } else {
        assert Insert(x, xs, key) == [x] + xs;
      }
    }
  }

  /** The sort orders by its key and is a permutation. */
  lemma {:induction false} SortBySorted(xs: seq<string>, key: string -> Double)
    ensures SortedBy(SortBy(xs, key), key)
    ensures multiset(SortBy(xs, key)) == multiset(xs)
  {
    if xs != [] {
      SortBySorted(xs[1..], key);
      InsertSorted(xs[0], SortBy(xs[1..], key), key);
    }
  }

  /** The numeric sort orders by the double of each value and is a permutation. */
  lemma SortNumericSorted(xs: seq<string>)
    ensures SortedBy(SortNumeric(xs), Key)
    ensures multiset(SortNumeric(xs)) == multiset(xs)
  {
    SortBySorted(xs, Key);
  }

  /** A permutation of a list without repetitions has none. */
  lemma PermutationNoDup(xs: seq<string>, ys: seq<string>)
    requires multiset(xs) == multiset(ys) && NoDup(xs)
    ensures NoDup(ys)
  {
    forall i, j | 0 <= i < j < |ys| ensures ys[i] != ys[j] {
      if ys[i] == ys[j] {
        var y := ys[i];
        assert multiset(ys[..j])[y] >= 1 by { assert ys[..j][i] == y; }
        assert ys == ys[..j] + [y] + ys[j + 1..];
        assert multiset(ys)[y] >= 2;
        MultisetOneCopy(xs, y);
        assert false;
      }
    }
  }

  lemma {:induction false} MultisetOneCopy(xs: seq<string>, y: string)
    requires NoDup(xs)
    ensures multiset(xs)[y] <= 1
  {
    if xs != [] {
      var init := xs[..|xs| - 1];
      assert xs == init + [xs[|xs| - 1]];
      assert NoDup(init) by {
        forall i, j | 0 <= i < j < |init| ensures init[i] != init[j] {
          assert init[i] == xs[i] && init[j] == xs[j];
        }
      }
      MultisetOneCopy(init, y);
      if xs[|xs| - 1] == y {
        assert y !in init by {
          forall i | 0 <= i < |init| ensures init[i] != y {
            assert init[i] == xs[i];
          }
        }
      }
    }
  }

  /** The PMIDs `2^n + 1` and `2^n`, for `n` from 53 on and in that order, convert to the same
      double, so the stable numeric sort leaves them in that order. */
  lemma TiedPmidsKeepOrder(a: string, b: string, n: nat)
    requires 53 <= n < 1024
    requires AllDigits(a) && DigitsValue(a) == Pow2(n) + 1
    requires AllDigits(b) && DigitsValue(b) == Pow2(n)
    ensures SortNumeric([a, b]) == [a, b]
  {
    DoubleTie(n);
    assert [a, b][1..] == [b];
  }

  // ---------------------------------------------------------------------------------------
  // The references text

  /** The identifiers cited in a text: the digit groups of `[(P<digits>)]`, without repetitions,
      ascending by the double of each value. */
  function PmidList(text: string): seq<string> {
    SortNumeric(Dedup(Pmids(text)))
  }

  /** Every identifier cited in the text is listed exactly once, the list is ordered by key, and
      it holds nothing else. */
  lemma PmidListSpec(text: string)
    ensures var l := PmidList(text);
            && SortedBy(l, Key) && NoDup(l)
            && (forall d :: d in l <==> d in Pmids(text))
            && (forall d :: d in l ==> |d| > 0 && AllDigits(d) && Contains(text, PmidToken(d)))
  {
    var u := Dedup(Pmids(text));
    DedupSpec(Pmids(text));
    SortNumericSorted(u);
    PermutationNoDup(u, PmidList(text));
    forall d ensures d in PmidList(text) <==> d in u {
      assert d in PmidList(text) <==> d in multiset(PmidList(text));
      assert d in u <==> d in multiset(u);
    }
    PmidsSound(text, 0);
    PmidsDigits(text, 0);
  }

  /** A digit string whose value has at most 53 binary digits, that is lies below `2^53`
      (`BitLengthBound`), so that its double is exact (`ToDoubleExact`). */
  predicate ExactPmid(d: string) {
    AllDigits(d) && BitLength(DigitsValue(d)) <= 53
  }

  /** Among identifiers below `2^53`, the list is ascending by exact value. */
  lemma PmidListByValue(text: string)
    ensures var l := PmidList(text);
            forall i, j :: 0 <= i < j < |l| && ExactPmid(l[i]) && ExactPmid(l[j])
                           ==> DigitsValue(l[i]) <= DigitsValue(l[j])
  {
    var l := PmidList(text);
    PmidListSpec(text);
    forall i, j | 0 <= i < j < |l| && ExactPmid(l[i]) && ExactPmid(l[j])
      ensures DigitsValue(l[i]) <= DigitsValue(l[j])
    {
      assert l[i] in l && l[j] in l;
      assert Le(Key(l[i]), Key(l[j]));
    }
  }

  /** A citation `[(P d)]` anywhere in the text puts `d` in the list. */
  lemma PmidListComplete(text: string, i: nat, d: string)
    requires i + |PmidToken(d)| <= |text| && text[i..i + |PmidToken(d)|] == PmidToken(d)
    requires |d| > 0 && AllDigits(d)
    ensures d in PmidList(text)
  {
    PmidsComplete(text, 0, i, d);
    PmidListSpec(text);
  }

  /** The line of one references page: `{{refs>` becomes `{{page>`, with `&nofooter&link` added
      before `}}` when the page does not hold it yet. */
  function PageLine(page: string): string {
    var p := if Contains(page, "&nofooter&link") then page
             else Replace(page, "}}", "&nofooter&link}}");
    Replace(p, "{{refs>", "{{page>") + "\n"
  }

  /** A references page `{{refs>name}}` with a plain name is included as
      `{{page>name&nofooter&link}}`. */
  lemma PageLineOfRefs(name: string)
    requires forall k :: 0 <= k < |name| ==> name[k] != '{' && name[k] != '}' && name[k] != '&'
    ensures PageLine("{{refs>" + name + "}}") == "{{page>" + name + "&nofooter&link}}\n"
  {
    var head := "{{refs>" + name;
    forall k | 0 <= k < |head| ensures head[k] != '}' && head[k] != '&' {
      if k >= 7 {
        assert head[k] == name[k - 7];
      }
    }
    NoAmpersand(head + "}}");
    AddNoFooter(head);
    var rest := name + "&nofooter&link" + "}}";
    assert head + "&nofooter&link}}" == "{{refs>" + rest;
    RefsToPage(rest, |name|);
    assert "{{page>" + rest == "{{page>" + name + "&nofooter&link}}";
  }

  /** The closing `}}` of a page whose name holds no `}` receives the suffix. */
  lemma AddNoFooter(head: string)
    requires forall k :: 0 <= k < |head| ==> head[k] != '}'
    ensures Replace(head + "}}", "}}", "&nofooter&link}}") == head + "&nofooter&link}}"
  {
    ReplaceSole(head, "}}", "&nofooter&link}}");
  }

  /** The opening `{{refs>` becomes `{{page>` when the rest is free of `{`. */
  lemma RefsToPage(rest: string, n: nat)
    requires n <= |rest| && forall k :: 0 <= k < n ==> rest[k] != '{'
    requires rest[n..] == "&nofooter&link}}"
    ensures Replace("{{refs>" + rest, "{{refs>", "{{page>") == "{{page>" + rest
  {
    NoOpenBrace(rest, n);
    ReplaceOnlyHead("{{refs>", rest, "{{page>");
  }

  lemma NoOpenBrace(rest: string, n: nat)
    requires n <= |rest| && forall k :: 0 <= k < n ==> rest[k] != '{'
    requires rest[n..] == "&nofooter&link}}"
    ensures forall k :: 0 <= k < |rest| ==> rest[k] != '{'
  {
    forall k | n <= k < |rest| ensures rest[k] != '{' {
      assert rest[k] == rest[n..][k - n];
    }
  }

  /** A needle occurs only where its first character does. */
  lemma {:induction false} ContainsFirst(s: string, p: string)
    requires |p| > 0 && Contains(s, p)
    ensures exists k :: 0 <= k < |s| && s[k] == p[0]
    decreases |s|
  {
    if StartsWith(s, p) {
      assert s[0] == s[..|p|][0];
    } else {
      ContainsFirst(s[1..], p);
      var k :| 0 <= k < |s[1..]| && s[1..][k] == p[0];
      assert s[k + 1] == p[0];
    }
  }

  lemma NoAmpersand(page: string)
    requires forall k :: 0 <= k < |page| ==> page[k] != '&'
    ensures !Contains(page, "&nofooter&link")
  {
    if Contains(page, "&nofooter&link") {
      ContainsFirst(page, "&nofooter&link");
    }
  }
  // ---------------------------------------------------------------------------------------
  // The bibliography text

  /** The refnotes settings block and the long-format PMID switch that every bibliography opens
      with. */
  const Preamble: string :=
    "<refnotes>\n"
    + "  refnote-id       : 1\n"
    + "  reference-base   : text\n"
    + "  reference-font-weight : normal\n"
    + "  reference-font-style : normal\n"
    + "  reference-format : []\n"
    + "  reference-group  : ,\n"
    + "  reference-render : basic\n"
    + "  multi-ref-id : note\n"
    + "  note-preview : popup\n"
    + "  notes-separator : none\n"
    + "  note-text-align : left\n"
    + "  note-font-size : normal\n"
    + "  note-render : basic\n"
    + "  note-id-base : text\n"
    + "  note-id-font-weight : normal\n"
    + "  note-id-font-style : normal\n"
    + "  note-id-format : .\n"
    + "  back-ref-caret : none\n"
    + "  back-ref-base : text\n"
    + "  back-ref-font-weight : bold\n"
    + "  back-ref-font-style : normal\n"
    + "  back-ref-format : none\n"
    + "  back-ref-separator : ,\n"
    + "  scoping : single\n"
    + "</refnotes>\n\n"
    + "{{pmid>doc_format:long}}\n\n"

  /** The lines `f(x)` of the items appended in order to `acc`. */
  function LinesOnto(acc: string, f: string -> string, xs: seq<string>): string
    decreases |xs|
  {
    if xs == [] then acc else LinesOnto(acc, f, xs[..|xs| - 1]) + f(xs[|xs| - 1])
  }

  /** Every item's line is part of the text. */
  lemma {:induction false} LinesOntoHas(acc: string, f: string -> string, xs: seq<string>, i: nat)
    requires i < |xs|
    ensures Contains(LinesOnto(acc, f, xs), f(xs[i]))
    decreases |xs|
  {
    var init := xs[..|xs| - 1];
    if i == |xs| - 1 {
      assert StartsWith(f(xs[i]), f(xs[i]));
      ContainsPrepend(LinesOnto(acc, f, init), f(xs[i]), f(xs[i]));
    } else {
      assert init[i] == xs[i];
      LinesOntoHas(acc, f, init, i);
      ContainsExtend(LinesOnto(acc, f, init), f(xs[|xs| - 1]), f(xs[i]));
    }
  }

  /** What the text held before the lines is still there. */
  lemma {:induction false} LinesOntoKeeps(acc: string, f: string -> string, xs: seq<string>, x: string)
    requires Contains(acc, x)
    ensures Contains(LinesOnto(acc, f, xs), x)
    decreases |xs|
  {
    if xs != [] {
      LinesOntoKeeps(acc, f, xs[..|xs| - 1], x);
      ContainsExtend(LinesOnto(acc, f, xs[..|xs| - 1]), f(xs[|xs| - 1]), x);
    }
  }

  /** The refnotes entry of a PMID, rendered by the pubmed plugin. */
  function PmidLine(d: string): string {
    "[(P" + d + ">{{pmid>" + d + "}})]\n"
  }

  /** A manual reference is copied as a line of its own. */
  function ManualLine(r: string): string {
    r + "\n"
  }

  /** The settings followed, when there are pages, by their lines and a blank line. */
  function PagesPart(pages: seq<string>): string {
    if |pages| > 0 then LinesOnto(Preamble, PageLine, pages) + "\n\n" else Preamble
  }

  /** Then, when the text cites PMIDs, their lines and a blank line. */
  function PmidsPart(pages: seq<string>, cited: string): string {
    var r := PagesPart(pages);
    if |Pmids(cited)| > 0 then LinesOnto(r, PmidLine, PmidList(cited)) + "\n\n" else r
  }

  /** The text of the bibliography: the settings, then the included pages, the cited PMIDs and the
      manual references, each group but the last closed by a blank line when present. */
  function RefsText(pages: seq<string>, cited: string, manual: seq<string>): string {
    LinesOnto(PmidsPart(pages, cited), ManualLine, manual)
  }

  /** Whether there is anything to cite: pages, PMIDs in either document, or manual references. */
  predicate IncludeRefs(s: State) {
    |s.extraRefs| > 0 || |Pmids(s.output + s.revealOutput)| > 0 || |s.manualRefs| > 0
  }

  /** `intdiv($n, 4)` plus one for a remainder: four references per slide. */
  function CeilDiv4(n: nat): (k: nat)
    ensures 4 * k >= n && (n > 0 ==> 4 * (k - 1) < n)
    ensures n > 0 <==> k > 0
  {
    n / 4 + (if n % 4 > 0 then 1 else 0)
  }

  /** The heading of the `i`-th of `k` references slides. */
  function RefPageTitle(i: nat, k: nat): string {
    "Références " + NatToString(i) + " / " + NatToString(k)
  }

  /** The `i`-th of `k` slides showing four refnotes each. */
  function RefPage(c: Conf, i: nat, k: nat): string {
    "\n\n\n" + "---- eric :1px.png bg-none none ---->\n" + "\n"
    + c.table.beforeH3 + RefPageTitle(i, k) + c.table.afterH3 + "\n\n"
    + "<WRAP references>~~REFNOTES 4~~</WRAP>\n" + "<----\n\n"
  }

  /** Slides 1 to `i` of `k` appended to `acc`. */
  function RefPagesOnto(acc: string, c: Conf, k: nat, i: nat): string {
    if i == 0 then acc else RefPagesOnto(acc, c, k, i - 1) + RefPage(c, i, k)
  }

  /** Each slide shows its heading. */
  lemma RefPageTitled(c: Conf, i: nat, k: nat)
    ensures Contains(RefPage(c, i, k), RefPageTitle(i, k))
  {
    var before := "\n\n\n" + "---- eric :1px.png bg-none none ---->\n" + "\n" + c.table.beforeH3;
    var after := c.table.afterH3 + "\n\n" + "<WRAP references>~~REFNOTES 4~~</WRAP>\n" + "<----\n\n";
    ContainsInfix(before, RefPageTitle(i, k), after);
    assert before + RefPageTitle(i, k) + after == RefPage(c, i, k);
  }

  /** Slides 1 to `i` carry the headings 1 to `i`. */
  lemma {:induction false} RefPagesTitled(acc: string, c: Conf, k: nat, i: nat, j: nat)
    requires 1 <= j <= i
    ensures Contains(RefPagesOnto(acc, c, k, i), RefPageTitle(j, k))
  {
    var init := RefPagesOnto(acc, c, k, i - 1);
    if j == i {
      RefPageTitled(c, i, k);
      ContainsPrepend(init, RefPage(c, i, k), RefPageTitle(j, k));
    } else {
      RefPagesTitled(acc, c, k, i - 1, j);
      ContainsExtend(init, RefPage(c, i, k), RefPageTitle(j, k));
    }
  }

  /** The summary slide: it holds the whole bibliography with the counts of references and of
      slides. */
  function SummarySlide(c: Conf, refs: string, n: nat, k: nat): string {
    "---- eric :1px.png bg-none none ---->\n" + "\n"
    + c.table.beforeH2 + "Références bibliographiques" + c.table.afterH2 + "\n\n"
    + "  * Nombre de références : " + NatToString(n) + "\n\n"
    + "  * Nombre de slides : " + NatToString(k) + "\n\n"
    + "\n\n" + refs + "\n"
    + "<----\n\n"
  }

  /** The slides added after the deck: the map placeholder, the summary slide, then the refnotes
      slides. */
  function RefDeckOnto(deck: string, c: Conf, refs: string, n: nat): string {
    var k := CeilDiv4(n);
    RefPagesOnto(deck + (MapTag + "\n\n") + SummarySlide(c, refs, n, k), c, k, k) + "\n\n\n"
  }

  /** The number of distinct citation tokens in the deck. */
  function DistinctRefs(deck: string): nat {
    |Dedup(RefTokens(deck))|
  }

  /** The three pieces appended to the document. */
  function RefsHeading(): string { "\n\n\n===== Références =====\n\n\n" }
  function RefsClosing(): string { "\n\n~~REFNOTES~~\n\n" }

  /** `createPubmedRefNotes` on the state left by the tree walk. */
  function RefNotesSpec(c: Conf, s: State): State {
    if !IncludeRefs(s) then s
    else AddRefs(c, s, RefsText(s.extraRefs, s.output + s.revealOutput, s.manualRefs),
                 DistinctRefs(s.revealOutput))
  }

  /** Adds the bibliography `refs` to the document, and to a non-empty deck that cites `n > 0`
      distinct references the slides for them. */
  function AddRefs(c: Conf, s: State, refs: string, n: nat): State {
    var out := s.output + RefsHeading() + (refs + "\n") + RefsClosing();
    if PhpEmpty(s.revealOutput) || n == 0 then s.(output := out)
    else
      s.(output := out,
         presentationMap := s.presentationMap + "  * Références bibliographiques\n",
         revealOutput := RefDeckOnto(s.revealOutput, c, refs, n))
  }

  // ---------------------------------------------------------------------------------------
  // What the bibliography step promises

  /** The step changes nothing exactly when there is nothing to cite. */
  lemma RefNotesNothingToCite(c: Conf, s: State)
    ensures RefNotesSpec(c, s) == s <==> !IncludeRefs(s)
  {
    if IncludeRefs(s) {
      assert |RefNotesSpec(c, s).output| > |s.output|;
    }
  }

  /** Only the two documents and the map change, and each only grows; the pages and manual
      references, the headings and the slide buffers are kept. */
  lemma RefNotesGrows(c: Conf, s: State)
    ensures var r := RefNotesSpec(c, s);
            && Grows(s, r)
            && r == s.(output := r.output, revealOutput := r.revealOutput,
                       presentationMap := r.presentationMap)
  {
    if IncludeRefs(s) {
      AddRefsGrows(c, s, RefsText(s.extraRefs, s.output + s.revealOutput, s.manualRefs),
                   DistinctRefs(s.revealOutput));
    }
  }

  lemma AddRefsGrows(c: Conf, s: State, refs: string, n: nat)
    ensures var r := AddRefs(c, s, refs, n);
            && Grows(s, r)
            && r == s.(output := r.output, revealOutput := r.revealOutput,
                       presentationMap := r.presentationMap)
  {
    var o1 := s.output + RefsHeading();
    var o2 := o1 + (refs + "\n");
    AppendGrows(s.output, RefsHeading());
    AppendGrows(o1, refs + "\n");
    AppendGrows(o2, RefsClosing());
    PrefixTrans(s.output, o1, o2);
    PrefixTrans(s.output, o2, o2 + RefsClosing());
    if !PhpEmpty(s.revealOutput) && n > 0 {
      DeckGrows(s.revealOutput, c, refs, n);
      AppendGrows(s.presentationMap, "  * Références bibliographiques\n");
    }
  }

  lemma DeckGrows(deck: string, c: Conf, refs: string, n: nat)
    ensures deck <= RefDeckOnto(deck, c, refs, n)
  {
    var k := CeilDiv4(n);
    var d1 := deck + (MapTag + "\n\n");
    var d2 := d1 + SummarySlide(c, refs, n, k);
    AppendGrows(deck, MapTag + "\n\n");
    AppendGrows(d1, SummarySlide(c, refs, n, k));
    PrefixTrans(deck, d1, d2);
    PagesGrow(d2, c, k, k);
    PrefixTrans(deck, d2, RefPagesOnto(d2, c, k, k));
    AppendGrows(RefPagesOnto(d2, c, k, k), "\n\n\n");
    PrefixTrans(deck, RefPagesOnto(d2, c, k, k), RefDeckOnto(deck, c, refs, n));
  }

  lemma {:induction false} PagesGrow(acc: string, c: Conf, k: nat, i: nat)
    ensures acc <= RefPagesOnto(acc, c, k, i)
  {
    if i > 0 {
      PagesGrow(acc, c, k, i - 1);
      AppendGrows(RefPagesOnto(acc, c, k, i - 1), RefPage(c, i, k));
      PrefixTrans(acc, RefPagesOnto(acc, c, k, i - 1), RefPagesOnto(acc, c, k, i));
    }
  }

  /** Whatever the bibliography text holds ends up in the document. */
  lemma OutputHasRefs(c: Conf, s: State, x: string)
    requires IncludeRefs(s)
    requires Contains(RefsText(s.extraRefs, s.output + s.revealOutput, s.manualRefs), x)
    ensures Contains(RefNotesSpec(c, s).output, x)
  {
    AddRefsHas(c, s, RefsText(s.extraRefs, s.output + s.revealOutput, s.manualRefs),
               DistinctRefs(s.revealOutput), x);
  }

  lemma AddRefsHas(c: Conf, s: State, refs: string, n: nat, x: string)
    requires Contains(refs, x)
    ensures Contains(AddRefs(c, s, refs, n).output, x)
  {
    ContainsExtend(refs, "\n", x);
    ContainsPrepend(s.output + RefsHeading(), refs + "\n", x);
    ContainsExtend(s.output + RefsHeading() + (refs + "\n"), RefsClosing(), x);
  }

  /** The item `x` has its line among the lines. */
  lemma LinesOntoHasItem(acc: string, f: string -> string, xs: seq<string>, x: string)
    requires x in xs
    ensures Contains(LinesOnto(acc, f, xs), f(x))
  {
    var i :| 0 <= i < |xs| && xs[i] == x;
    LinesOntoHas(acc, f, xs, i);
  }

  /** Text already in the pages part survives the later groups. */
  lemma PagesPartKept(pages: seq<string>, cited: string, manual: seq<string>, x: string)
    requires Contains(PagesPart(pages), x)
    ensures Contains(RefsText(pages, cited, manual), x)
  {
    var r := PagesPart(pages);
    if |Pmids(cited)| > 0 {
      LinesOntoKeeps(r, PmidLine, PmidList(cited), x);
      ContainsExtend(LinesOnto(r, PmidLine, PmidList(cited)), "\n\n", x);
    }
    LinesOntoKeeps(PmidsPart(pages, cited), ManualLine, manual, x);
  }

  lemma RefsTextHasPage(pages: seq<string>, cited: string, manual: seq<string>, p: string)
    requires p in pages
    ensures Contains(RefsText(pages, cited, manual), PageLine(p))
  {
    LinesOntoHasItem(Preamble, PageLine, pages, p);
    ContainsExtend(LinesOnto(Preamble, PageLine, pages), "\n\n", PageLine(p));
    PagesPartKept(pages, cited, manual, PageLine(p));
  }

  lemma RefsTextHasPmid(pages: seq<string>, cited: string, manual: seq<string>, d: string)
    requires d in Pmids(cited)
    ensures Contains(RefsText(pages, cited, manual), PmidLine(d))
  {
    PmidListHas(cited, d);
    var r := PagesPart(pages);
    LinesOntoHasItem(r, PmidLine, PmidList(cited), d);
    ContainsExtend(LinesOnto(r, PmidLine, PmidList(cited)), "\n\n", PmidLine(d));
    LinesOntoKeeps(PmidsPart(pages, cited), ManualLine, manual, PmidLine(d));
  }

  lemma PmidListHas(cited: string, d: string)
    requires d in Pmids(cited)
    ensures d in PmidList(cited)
  {
    PmidListSpec(cited);
  }

  lemma RefsTextHasManual(pages: seq<string>, cited: string, manual: seq<string>, m: string)
    requires m in manual
    ensures Contains(RefsText(pages, cited, manual), ManualLine(m))
  {
    LinesOntoHasItem(PmidsPart(pages, cited), ManualLine, manual, m);
  }

  /** Every included page, every PMID cited in either document and every manual reference gets
      its line in the document's bibliography. */
  lemma RefNotesCitesAll(c: Conf, s: State)
    ensures forall p :: p in s.extraRefs ==> Contains(RefNotesSpec(c, s).output, PageLine(p))
    ensures forall d :: d in Pmids(s.output + s.revealOutput) ==>
              Contains(RefNotesSpec(c, s).output, PmidLine(d))
    ensures forall m :: m in s.manualRefs ==> Contains(RefNotesSpec(c, s).output, ManualLine(m))
  {
    var cited := s.output + s.revealOutput;
    forall p | p in s.extraRefs ensures Contains(RefNotesSpec(c, s).output, PageLine(p)) {
      RefsTextHasPage(s.extraRefs, cited, s.manualRefs, p);
      OutputHasRefs(c, s, PageLine(p));
    }
    forall d | d in Pmids(cited) ensures Contains(RefNotesSpec(c, s).output, PmidLine(d)) {
      RefsTextHasPmid(s.extraRefs, cited, s.manualRefs, d);
      OutputHasRefs(c, s, PmidLine(d));
    }
    forall m | m in s.manualRefs ensures Contains(RefNotesSpec(c, s).output, ManualLine(m)) {
      RefsTextHasManual(s.extraRefs, cited, s.manualRefs, m);
      OutputHasRefs(c, s, ManualLine(m));
    }
  }

  /** The slide deck receives references slides only when it is not empty and cites something;
      then it gets one slide per four distinct citations, headed 1 to `k` of `k`, and the map gets
      the bibliography entry. */
  lemma RefNotesSlides(c: Conf, s: State)
    ensures var r := RefNotesSpec(c, s);
            var n := DistinctRefs(s.revealOutput);
            var k := CeilDiv4(n);
            if IncludeRefs(s) && !PhpEmpty(s.revealOutput) && n > 0 then
              && 4 * (k - 1) < n <= 4 * k
              && r.presentationMap == s.presentationMap + "  * Références bibliographiques\n"
              && (forall j :: 1 <= j <= k ==> Contains(r.revealOutput, RefPageTitle(j, k)))
            else
              r.revealOutput == s.revealOutput && r.presentationMap == s.presentationMap
  {
    if IncludeRefs(s) {
      AddRefsSlides(c, s, RefsText(s.extraRefs, s.output + s.revealOutput, s.manualRefs),
                    DistinctRefs(s.revealOutput));
    }
  }

  lemma AddRefsSlides(c: Conf, s: State, refs: string, n: nat)
    ensures var r := AddRefs(c, s, refs, n);
            var k := CeilDiv4(n);
            if !PhpEmpty(s.revealOutput) && n > 0 then
              && r.presentationMap == s.presentationMap + "  * Références bibliographiques\n"
              && (forall j :: 1 <= j <= k ==> Contains(r.revealOutput, RefPageTitle(j, k)))
            else
              r.revealOutput == s.revealOutput && r.presentationMap == s.presentationMap
  {
    var k := CeilDiv4(n);
    if !PhpEmpty(s.revealOutput) && n > 0 {
      forall j | 1 <= j <= k ensures Contains(AddRefs(c, s, refs, n).revealOutput, RefPageTitle(j, k)) {
        DeckHasPages(s.revealOutput, c, refs, n, j);
      }
    }
  }

  lemma DeckHasPages(deck: string, c: Conf, refs: string, n: nat, j: nat)
    requires 1 <= j <= CeilDiv4(n)
    ensures Contains(RefDeckOnto(deck, c, refs, n), RefPageTitle(j, CeilDiv4(n)))
  {
    var k := CeilDiv4(n);
    var acc := deck + (MapTag + "\n\n") + SummarySlide(c, refs, n, k);
    RefPagesTitled(acc, c, k, k, j);
    ContainsExtend(RefPagesOnto(acc, c, k, k), "\n\n\n", RefPageTitle(j, k));
  }

  /** A piece occurs in any text that ends with it. */
  lemma ContainsTail(a: string, p: string)
    ensures Contains(a + p, p)
  {
    assert p[..|p|] == p;
    ContainsPrepend(a, p, p);
  }

  /** A text keeps its opening when more is appended. */
  lemma StartsExtend(a: string, b: string, p: string)
    requires StartsWith(a, p)
    ensures StartsWith(a + b, p)
  {
    assert (a + b)[..|p|] == a[..|p|];
  }

  /** What is found in a prefix is found in the whole text. */
  lemma ContainsGrown(a: string, b: string, p: string)
    requires a <= b && Contains(a, p)
    ensures Contains(b, p)
  {
    assert b == a + b[|a|..];
    ContainsExtend(a, b[|a|..], p);
  }

  /** The summary slide opens with its background-free slide line and shows the heading, the
      number of references, the number of reference slides and the whole bibliography text. */
  lemma SummaryShows(c: Conf, refs: string, n: nat, k: nat)
    ensures StartsWith(SummarySlide(c, refs, n, k), "---- eric :1px.png bg-none none ---->\n")
    ensures Contains(SummarySlide(c, refs, n, k), c.table.beforeH2 + "Références bibliographiques" + c.table.afterH2)
    ensures Contains(SummarySlide(c, refs, n, k), "  * Nombre de références : " + NatToString(n) + "\n\n")
    ensures Contains(SummarySlide(c, refs, n, k), "  * Nombre de slides : " + NatToString(k) + "\n\n")
    ensures Contains(SummarySlide(c, refs, n, k), "\n\n" + refs + "\n")
  {
    var e1 := "---- eric :1px.png bg-none none ---->\n";
    var b, a := c.table.beforeH2, c.table.afterH2;
    var heading := b + "Références bibliographiques" + a;
    var refLine := "  * Nombre de références : " + NatToString(n) + "\n\n";
    var slideLine := "  * Nombre de slides : " + NatToString(k) + "\n\n";
    var body := "\n\n" + refs + "\n";
    var p2 := e1 + "\n";
    var p5 := p2 + b + "Références bibliographiques" + a;
    var p6 := p5 + "\n\n";
    var p9 := p6 + "  * Nombre de références : " + NatToString(n) + "\n\n";
    var p12 := p9 + "  * Nombre de slides : " + NatToString(k) + "\n\n";
    var p15 := p12 + "\n\n" + refs + "\n";
    // Opening line.
    assert e1 + "\n" == p2;
    assert p2[..|e1|] == e1;
    StartsExtend(p2, b, e1);
    StartsExtend(p2 + b, "Références bibliographiques", e1);
    StartsExtend(p2 + b + "Références bibliographiques", a, e1);
    StartsExtend(p5, "\n\n", e1);
    StartsExtend(p6, "  * Nombre de références : ", e1);
    StartsExtend(p6 + "  * Nombre de références : ", NatToString(n), e1);
    StartsExtend(p6 + "  * Nombre de références : " + NatToString(n), "\n\n", e1);
    StartsExtend(p9, "  * Nombre de slides : ", e1);
    StartsExtend(p9 + "  * Nombre de slides : ", NatToString(k), e1);
    StartsExtend(p9 + "  * Nombre de slides : " + NatToString(k), "\n\n", e1);
    StartsExtend(p12, "\n\n", e1);
    StartsExtend(p12 + "\n\n", refs, e1);
    StartsExtend(p12 + "\n\n" + refs, "\n", e1);
    StartsExtend(p15, "<----\n\n", e1);
    // Heading.
    AppendAssoc3(p2, b, "Références bibliographiques", a);
    ContainsTail(p2, heading);
    // Number of references.
    AppendAssoc3(p6, "  * Nombre de références : ", NatToString(n), "\n\n");
    ContainsTail(p6, refLine);
    // Number of slides.
    AppendAssoc3(p9, "  * Nombre de slides : ", NatToString(k), "\n\n");
    ContainsTail(p9, slideLine);
    // The bibliography text.
    AppendAssoc3(p12, "\n\n", refs, "\n");
    ContainsTail(p12, body);
    // Each stays in what follows.
    ContainsExtend(p5, "\n\n", heading);
    ContainsClimb3(p6, "  * Nombre de références : ", NatToString(n), "\n\n", heading);
    ContainsClimb3(p9, "  * Nombre de slides : ", NatToString(k), "\n\n", heading);
    ContainsClimb3(p9, "  * Nombre de slides : ", NatToString(k), "\n\n", refLine);
    ContainsClimb3(p12, "\n\n", refs, "\n", heading);
    ContainsClimb3(p12, "\n\n", refs, "\n", refLine);
    ContainsClimb3(p12, "\n\n", refs, "\n", slideLine);
    ContainsExtend(p15, "<----\n\n", heading);
    ContainsExtend(p15, "<----\n\n", refLine);
    ContainsExtend(p15, "<----\n\n", slideLine);
    ContainsExtend(p15, "<----\n\n", body);
  }

  lemma ContainsClimb3(o: string, x: string, y: string, z: string, p: string)
    requires Contains(o, p)
    ensures Contains(o + x + y + z, p)
  {
    ContainsExtend(o, x, p);
    ContainsExtend(o + x, y, p);
    ContainsExtend(o + x + y, z, p);
  }

  /** The bibliography deck shows the summary slide: the two counts and the whole text. */
  lemma DeckHasSummary(deck: string, c: Conf, refs: string, n: nat)
    ensures Contains(RefDeckOnto(deck, c, refs, n), "  * Nombre de références : " + NatToString(n) + "\n\n")
    ensures Contains(RefDeckOnto(deck, c, refs, n), "  * Nombre de slides : " + NatToString(CeilDiv4(n)) + "\n\n")
    ensures Contains(RefDeckOnto(deck, c, refs, n), "\n\n" + refs + "\n")
  {
    var k := CeilDiv4(n);
    var d2 := deck + (MapTag + "\n\n") + SummarySlide(c, refs, n, k);
    var full := RefDeckOnto(deck, c, refs, n);
    PagesGrow(d2, c, k, k);
    AppendGrows(RefPagesOnto(d2, c, k, k), "\n\n\n");
    PrefixTrans(d2, RefPagesOnto(d2, c, k, k), full);
    SummaryShows(c, refs, n, k);
    var xs := ["  * Nombre de références : " + NatToString(n) + "\n\n",
               "  * Nombre de slides : " + NatToString(k) + "\n\n", "\n\n" + refs + "\n"];
    forall i | 0 <= i < 3
      ensures Contains(full, xs[i])
    {
      ContainsPrepend(deck + (MapTag + "\n\n"), SummarySlide(c, refs, n, k), xs[i]);
      ContainsGrown(d2, full, xs[i]);
    }
    assert Contains(full, xs[0]) && Contains(full, xs[1]) && Contains(full, xs[2]);
  }
}
