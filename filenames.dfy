/** `_getOutputFileName`: where the document and the slide deck are written, from the `-o` and
    `-f` option values and the style's extension. */
module FileNames {
  import opened Wrappers
  import opened Strings

  /** `strrpos($fn, '.')`: the position of the last dot, if any. */
  function LastDot(fn: string): (r: Option<nat>)
    ensures r.Some? ==> r.value < |fn| && fn[r.value] == '.'
                        && forall q :: r.value < q < |fn| ==> fn[q] != '.'
    ensures r.None? ==> forall q :: 0 <= q < |fn| ==> fn[q] != '.'
    decreases |fn|
  {
    if fn == [] then None
    else if fn[|fn| - 1] == '.' then Some(|fn| - 1)
    else LastDot(fn[..|fn| - 1])
  }

  /** `_revealjs` goes just before the last dot; without a dot `strrpos` gives `false`, which
      `substr` reads as 0, so it goes in front. */
  function RevealName(fn: string): string {
    match LastDot(fn)
    case None => "_revealjs" + fn
    case Some(p) => fn[..p] + "_revealjs" + fn[p..]
  }

  /** The name chosen from the options: `-o` as given, else `-f` with the style's extension, else
      nothing; the slide deck's name is derived from it. */
  function OutputFileName(o: Option<string>, f: Option<string>, ext: string, forReveal: bool): string {
    var fn := if o.Some? && !PhpEmpty(o.value) then o.value
              else if f.Some? && !PhpEmpty(f.value) then f.value + ext
              else "";
    if forReveal then RevealName(fn) else fn
  }

  /** The document and the deck are never written to the same file: whatever the options, the
      deck's name is nine characters longer than the document's. */
  lemma DocumentAndDeckDiffer(o: Option<string>, f: Option<string>, ext: string)
    ensures |OutputFileName(o, f, ext, true)| == |OutputFileName(o, f, ext, false)| + 9
    ensures OutputFileName(o, f, ext, true) != OutputFileName(o, f, ext, false)
  {
    RevealNameInverse(OutputFileName(o, f, ext, false));
  }

  /** Without `-o`, the input `-f stem` and a style extension `.e` put the document in `stem.e`
      and the deck in `stem_revealjs.e`, whatever dots `stem` holds itself. */
  lemma NamesFromInput(o: Option<string>, f: Option<string>, e: string)
    requires !(o.Some? && !PhpEmpty(o.value)) && f.Some? && !PhpEmpty(f.value)
    requires forall k :: 0 <= k < |e| ==> e[k] != '.'
    ensures OutputFileName(o, f, "." + e, false) == f.value + "." + e
    ensures OutputFileName(o, f, "." + e, true) == f.value + "_revealjs." + e
  {
    assert f.value + ("." + e) == f.value + "." + e;
    RevealNameExtension(f.value, e);
  }

  /** The deck's name for `stem.ext` with a dot-free extension is `stem_revealjs.ext`. */
  lemma RevealNameExtension(stem: string, ext: string)
    requires forall k :: 0 <= k < |ext| ==> ext[k] != '.'
    ensures RevealName(stem + "." + ext) == stem + "_revealjs." + ext
  {
    var fn := stem + "." + ext;
    assert fn[|stem|] == '.';
    forall q | |stem| < q < |fn| ensures fn[q] != '.' {
      assert fn[q] == ext[q - |stem| - 1];
    }
    var r := LastDot(fn);
    assert r == Some(|stem|);
    assert fn[..|stem|] == stem;
    assert fn[|stem|..] == "." + ext;
  }

  /** The deck's name is the document's name with `_revealjs` inserted once: taking those nine
      characters out again gives the document's name. */
  lemma RevealNameInverse(fn: string)
    ensures var p := match LastDot(fn) case None => 0 case Some(q) => q;
            var r := RevealName(fn);
            && |r| == |fn| + 9
            && r[p..p + 9] == "_revealjs"
            && r[..p] + r[p + 9..] == fn
  {
    var p := match LastDot(fn) case None => 0 case Some(q) => q;
    var r := RevealName(fn);
    assert r == fn[..p] + "_revealjs" + fn[p..];
    assert r[..p] == fn[..p];
    assert r[p + 9..] == fn[p..];
  }

  /** The deck's file keeps the document's extension: what follows the last dot is the same. */
  lemma RevealNameKeepsExtension(fn: string)
    requires LastDot(fn).Some?
    ensures LastDot(RevealName(fn)).Some?
    ensures fn[LastDot(fn).value..] == RevealName(fn)[LastDot(RevealName(fn)).value..]
  {
    var p := LastDot(fn).value;
    var r := RevealName(fn);
    var stem := fn[..p] + "_revealjs";
    var ext := fn[p + 1..];
    forall k | 0 <= k < |ext| ensures ext[k] != '.' {
      assert ext[k] == fn[p + 1 + k];
    }
    assert fn[p..] == "." + ext;
    assert r == stem + "." + ext;
    assert fn == fn[..p] + "." + ext;
    RevealNameExtension(fn[..p], ext);
    assert r[|stem|] == '.';
    forall q | |stem| < q < |r| ensures r[q] != '.' {
      assert r[q] == ext[q - |stem| - 1];
    }
    assert LastDot(r) == Some(|stem|) by {
      LastDotIs(r, |stem|);
    }
    assert r[|stem|..] == "." + ext;
  }

  /** A dot followed only by other characters is the last dot. */
  lemma {:induction false} LastDotIs(fn: string, p: nat)
    requires p < |fn| && fn[p] == '.' && forall q :: p < q < |fn| ==> fn[q] != '.'
    ensures LastDot(fn) == Some(p)
    decreases |fn|
  {
    if p < |fn| - 1 {
      var init := fn[..|fn| - 1];
      assert init[p] == fn[p];
      forall q | p < q < |init| ensures init[q] != '.' {
        assert init[q] == fn[q];
      }
      LastDotIs(init, p);
    }
  }
}
