/** The dialect table set by `setStyle` and the indentation and emphasis rules that read it. */
module Styles {
  import opened Wrappers
  import opened Strings

  /** The style fields of the exporter: heading delimiters, the inline line break, the output
      file extension and the emphasis delimiters. */
  datatype StyleTable = StyleTable(
    beforeH1: string, afterH1: string,
    beforeH2: string, afterH2: string,
    beforeH3: string, afterH3: string,
    beforeH4: string, afterH4: string,
    styleLf: string, outputExt: string,
    preBold: string, postBold: string,
    preItalic: string, postItalic: string)

  /** The field values before any `setStyle` call. */
  const Initial := StyleTable("", "", "", "", "", "", "", "", "", ".md", "", "", "", "")

  /** Dokuwiki: `======` headings, ` \\ ` line breaks, `**` and `//` emphasis, `.txt` files. */
  const Dokuwiki := StyleTable(
    "====== ", " ======", "===== ", " =====", "==== ", " ====", "=== ", " ===",
    " \\\\ ", ".txt", "**", "**", "//", "//")

  /** Markdown: `#` headings, a backslash-newline line break, `**` and `*` emphasis, `.md` files. */
  const Markdown := StyleTable(
    "# ", "", "## ", "", "### ", "", "#### ", "",
    "\\\n", ".md", "**", "**", "*", "*")

  /** The `switch (strtolower($style))` of `setStyle`: the table for a known (lower-cased) dialect
      name, or None, in which case the fields keep their values. */
  function Dialect(lowered: string): (r: Option<StyleTable>)
    ensures r.Some? <==> lowered == "doku" || lowered == "md"
    ensures r == Some(Dokuwiki) <==> lowered == "doku"
    ensures r == Some(Markdown) <==> lowered == "md"
  {
    if lowered == "doku" then Some(Dokuwiki)
    else if lowered == "md" then Some(Markdown)
    else None
  }

  /** Dokuwiki closes each of its three heading levels with the mirror of the opener, and its
      openers shrink from H1 to H3; Markdown's openers grow from H1 to H3 and it has no closers. */
  lemma DialectHeadingsNest()
    ensures Dokuwiki.afterH1 == " " + Dokuwiki.beforeH1[..|Dokuwiki.beforeH1| - 1]
    ensures Dokuwiki.afterH2 == " " + Dokuwiki.beforeH2[..|Dokuwiki.beforeH2| - 1]
    ensures Dokuwiki.afterH3 == " " + Dokuwiki.beforeH3[..|Dokuwiki.beforeH3| - 1]
    ensures |Dokuwiki.beforeH1| > |Dokuwiki.beforeH2| > |Dokuwiki.beforeH3|
    ensures |Markdown.beforeH1| < |Markdown.beforeH2| < |Markdown.beforeH3|
    ensures Markdown.afterH1 == Markdown.afterH2 == Markdown.afterH3 == ""
  {
  }

  /** Number of two-blank units `_getLineIndent` puts before a bullet: the difference plus one,
      and 1 only when that is negative (so 0 is kept). */
  function IndentUnits(level: int, maxHeaders: int): (i: nat)
    ensures i == 0 <==> level == maxHeaders - 1
    ensures level >= maxHeaders - 1 ==> i == level - maxHeaders + 1
    ensures level < maxHeaders - 1 ==> i == 1
  {
    var i := level - maxHeaders + 1;
    if i < 0 then 1 else i
  }

  /** `_getLineIndent`: the bullet prefix. */
  function LineIndent(level: int, maxHeaders: int): (r: string)
    ensures |r| == 2 * IndentUnits(level, maxHeaders) + 2
    ensures r[|r| - 2..] == "* "
    ensures forall k :: 0 <= k < |r| - 2 ==> r[k] == ' '
  {
    RepeatBlanks(IndentUnits(level, maxHeaders));
    Repeat("  ", IndentUnits(level, maxHeaders)) + "* "
  }

  /** From the crossover level on, a deeper bullet is indented exactly one unit more. */
  lemma LineIndentGrows(level: int, maxHeaders: int)
    requires level >= maxHeaders - 1
    ensures LineIndent(level + 1, maxHeaders) == "  " + LineIndent(level, maxHeaders)
  {
  }

  /** Just below the crossover the indentation dips: a bullet one level deeper than another gets
      one unit less, because the clamp to 1 applies only to negative differences. */
  lemma LineIndentDips(maxHeaders: int)
    ensures LineIndent(maxHeaders - 2, maxHeaders) == "  * "
    ensures LineIndent(maxHeaders - 1, maxHeaders) == "* "
  {
  }

  /** The bold-else-italic rule of the slide compiler over `style.properties`. */
  function Emphasis(t: StyleTable, props: map<string, string>, w: string): string {
    if "fo:font-weight" in props && !PhpEmpty(props["fo:font-weight"]) then
      (if props["fo:font-weight"] == "bold" then t.preBold + w + t.postBold else w)
    else if "fo:font-style" in props && !PhpEmpty(props["fo:font-style"]) then
      (if props["fo:font-style"] == "italic" then t.preItalic + w + t.postItalic else w)
    else w
  }

  /** Bold and italic never combine: bold exactly when the weight is "bold"; italic exactly when
      the weight is missing or PHP-empty and the style is "italic"; otherwise the text is kept. */
  lemma EmphasisCases(t: StyleTable, props: map<string, string>, w: string)
    ensures var weightSet := "fo:font-weight" in props && !PhpEmpty(props["fo:font-weight"]);
            var bold := "fo:font-weight" in props && props["fo:font-weight"] == "bold";
            var italic := !weightSet && "fo:font-style" in props && props["fo:font-style"] == "italic";
            && (bold ==> Emphasis(t, props, w) == t.preBold + w + t.postBold)
            && (italic ==> Emphasis(t, props, w) == t.preItalic + w + t.postItalic)
            && (!bold && !italic ==> Emphasis(t, props, w) == w)
  {
  }
}
