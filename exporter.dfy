/** The exporter object `XMindToMD`. Its fields are the buffers of one export; every method updates
    them statement by statement as the PHP method does, and its contract ties the new buffers to
    the value-level semantics of the other modules, applied to the buffers before the call. */
module Exporter {
  import opened Wrappers
  import opened Strings
  import opened Topics
  import opened Styles
  import opened Patterns
  import opened Render
  import opened References
  import opened Assembly

  /** The entries of the `rjs` array that an export writes: the deck, the open slide with its flag
      and its notes, the presentation map, and the values stored by command nodes under their
      names. The array is a PHP value, so each write replaces one entry. */
  datatype Rjs = Rjs(output: string, currentSlide: string, currentSlideEmpty: bool,
                     currentSlideNotes: string, presentationMap: string,
                     values: map<string, string>)

  class XMindToMD {
    // The linear document and the headings it last wrote.
    var output: string
    var lastH1: string
    var lastH2: string
    var lastH3: string
    // The reference registries.
    var extraRefs: seq<string>
    var manualRefs: seq<string>
    // The `rjs` array.
    var rjs: Rjs
    // The style: the name given to `setStyle`, its fourteen delimiter and extension fields, and
    // the number of heading levels.
    var style: string
    var table: StyleTable
    var nheaders: int

    /** What the tree walk reads but never writes. */
    function Cfg(): Conf
      reads this
    {
      Conf(table, nheaders)
    }

    /** The buffers the tree walk and the later steps write. */
    function St(): State
      reads this
    {
      State(output, lastH1, lastH2, lastH3, extraRefs, manualRefs, rjs.output, rjs.currentSlide,
            rjs.currentSlideEmpty, rjs.currentSlideNotes, rjs.presentationMap, rjs.values)
    }

    /** The field initialisers; the option reading that follows them is not modelled, so the
        style is the initial one and `nheaders` its default. */
    constructor ()
      ensures St() == Start && table == Initial && nheaders == 2 && style == ""
    {
      output, lastH1, lastH2, lastH3 := "", "", "", "";
      extraRefs, manualRefs := [], [];
      rjs := Rjs("", "", true, "", "", map[]);
      style := "";
      table := StyleTable("", "", "", "", "", "", "", "", "", ".md", "", "", "", "");
      nheaders := 2;
    }

    /** `setStyle`: the name is kept as given; a known dialect (ignoring ASCII case) sets the
        whole table, an unknown one leaves it as it was. */
    method SetStyle(st: string)
      modifies this
      ensures style == st && nheaders == old(nheaders) && St() == old(St())
      ensures table == Dialect(Lower(st)).GetOr(old(table))
    {
      style := st;
      var lowered := Lower(st);
      if lowered == "doku" {
        table := table.(
          beforeH1 := "====== ", afterH1 := " ======",
          beforeH2 := "===== ", afterH2 := " =====",
          beforeH3 := "==== ", afterH3 := " ====",
          beforeH4 := "=== ", afterH4 := " ===",
          styleLf := " \\\\ ", outputExt := ".txt",
          preBold := "**", postBold := "**", preItalic := "//", postItalic := "//");
      } else if lowered == "md" {
        table := table.(
          beforeH1 := "# ", afterH1 := "",
          beforeH2 := "## ", afterH2 := "",
          beforeH3 := "### ", afterH3 := "",
          beforeH4 := "#### ", afterH4 := "",
          styleLf := "\\\n", outputExt := ".md",
          preBold := "**", postBold := "**", preItalic := "*", postItalic := "*");
      }
    }

    /** `_isExtraPage`. */
    method IsExtraPage(t: Topic) returns (b: bool)
      modifies this
      ensures b == ExtraPage(old(St()), t).consumed && St() == ExtraPage(old(St()), t).after
      ensures Cfg() == old(Cfg()) && style == old(style)
    {
      if StartsWith(t.Text(), "{{page>") {
        assert output + t.Text() + "\n" == output + (t.Text() + "\n");
        output := output + (t.Text() + "\n");
        rjs := rjs.(output := rjs.output + "\n" + t.Text() + "\n");
        return true;
      } else if StartsWith(t.Text(), "{{refs>") {
        extraRefs := extraRefs + [t.Text()];
        return true;
      }
      return false;
    }

    /** `_isOnlyReference`. */
    method IsOnlyReference(t: Topic) returns (b: bool)
      modifies this
      ensures b == OnlyReference(old(St()), t).consumed && St() == OnlyReference(old(St()), t).after
      ensures Cfg() == old(Cfg()) && style == old(style)
    {
      if IsManualReference(t.Text()) {
        manualRefs := manualRefs + [t.Text()];
        return true;
      }
      return false;
    }

    /** The `_isExtraPage(...) || _isOnlyReference(...)` test that opens both walkers. */
    method Consumed(t: Topic) returns (b: bool)
      modifies this
      ensures b == Consume(old(St()), t).consumed && St() == Consume(old(St()), t).after
      ensures Cfg() == old(Cfg()) && style == old(style)
    {
      b := IsExtraPage(t);
      if !b {
        b := IsOnlyReference(t);
      }
    }

    /** A heading line between blank lines, appended to the document. */
    method AppendHeading(before: string, text: string, after: string)
      modifies this
      ensures St() == old(St()).(output := old(output) + ("\n\n" + before + text + after + "\n\n"))
      ensures Cfg() == old(Cfg()) && style == old(style)
    {
      ghost var o := output;
      output := output + "\n\n";
      output := output + before;
      output := output + text;
      output := output + after;
      output := output + "\n\n";
      AppendAssoc4(o, "\n\n", before, text, after);
      AppendAssoc(o, "\n\n" + before + text + after, "\n\n");
    }

    /** The `switch` of `readNode`: a heading for levels 0 to 2 when `nheaders` allows it (the
        cases fall through to the next one otherwise), a bullet for every other node. */
    method EmitNode(t: Topic, level: int)
      modifies this
      ensures St() == Emit(old(Cfg()), old(St()), t, level)
      ensures Cfg() == old(Cfg()) && style == old(style)
    {
      var withoutLf := Replace(t.Text(), "\n", " / ");
      if level == 0 && nheaders > 0 {
        AppendHeading(table.beforeH1, withoutLf, table.afterH1);
        lastH1 := withoutLf;
        lastH2 := "";
        lastH3 := "";
      } else if 0 <= level <= 1 && nheaders > 1 {
        AppendHeading(table.beforeH2, withoutLf, table.afterH2);
        lastH2 := withoutLf;
        lastH3 := "";
      } else if 0 <= level <= 2 && nheaders > 2 {
        AppendHeading(table.beforeH3, Replace(t.Text(), "\n", " / "), table.afterH3);
        lastH3 := withoutLf;
      } else {
        var withLf := Replace(t.Text(), "\n", table.styleLf);
        var indent := LineIndent(level, nheaders);
        ghost var o := output;
        output := output + indent;
        output := output + (withLf + "\n");
        AppendAssoc(o, indent, withLf + "\n");
        AppendAssoc(indent, withLf, "\n");
      }
    }

    /** `readNode`. */
    method ReadNode(t: Topic, level: int)
      modifies this
      ensures St() == ReadNodeSpec(old(Cfg()), old(St()), t, level)
      ensures Cfg() == old(Cfg()) && style == old(style)
      decreases t, 3
    {
      var consumed := Consumed(t);
      if consumed {
        return;
      }
      if IsRevealNode(t.Text()) {
        ReadRevealNode(t, level);
        return;
      }
      EmitNode(t, level);
      ghost var s1 := St();
      var kids := t.Kids();
      for i := 0 to |kids|
        invariant St() == ReadKids(Cfg(), s1, t, i, level)
        invariant Cfg() == old(Cfg()) && style == old(style)
      {
        ReadNode(kids[i], level + 1);
      }
    }

    /** The header a reveal root writes into the current slide. */
    method SlideHeaderText(level: int) returns (header: string)
      ensures header == SlideHeader(Cfg(), St(), level)
    {
      header := "\n\n\n";
      header := header + SlideBefore(rjs.values);
      header := header + "\n";
      header := header + table.beforeH2;
      header := header + lastH2;
      if !PhpEmpty(lastH3) && level > 2 {
        header := header + (" - " + lastH3);
      } else {
        assert header + "" == header;
      }
      header := header + table.afterH2;
      header := header + "\n\n\n";
    }

    /** The decorated text of a content bullet: line breaks in the dialect's syntax, then the
        partial highlight, then one red wrap per `tag-red` marker, then bold or italic. */
    method BulletDecoration(t: Topic) returns (withLf: string)
      ensures withLf == BulletText(Cfg(), t)
    {
      withLf := Replace(t.Text(), "\n", table.styleLf);
      if FirstHighlight(withLf, 0).Some? {
        withLf := Highlight(withLf);
      }
      ghost var highlighted := withLf;
      assert highlighted == Highlight(WithLf(Cfg(), t));
      for i := 0 to |t.markers|
        invariant withLf == WrapRed(highlighted, TagRedCount(t.markers[..i]))
      {
        assert t.markers[..i + 1][..i] == t.markers[..i];
        if t.markers[i].markerId == Some("tag-red") {
          withLf := "<wrap dugp_red>**" + withLf + "**</wrap>";
        }
      }
      assert t.markers[..|t.markers|] == t.markers;
      var props := t.properties;
      if "fo:font-weight" in props && !PhpEmpty(props["fo:font-weight"]) {
        if props["fo:font-weight"] == "bold" {
          withLf := table.preBold + withLf + table.postBold;
        }
      } else if "fo:font-style" in props && !PhpEmpty(props["fo:font-style"]) {
        if props["fo:font-style"] == "italic" {
          withLf := table.preItalic + withLf + table.postItalic;
        }
      }
    }

    /** One child of a `notes` directive: a titled child becomes a notes bullet. */
    method AddNote(k: Topic)
      modifies this
      ensures St() == old(St()).(currentSlideNotes := old(rjs.currentSlideNotes)
                                   + (if k.title.Some? then "  * " + k.Text() + "\n" else ""))
      ensures Cfg() == old(Cfg()) && style == old(style)
    {
      if k.title.Some? {
        rjs := rjs.(currentSlideNotes := rjs.currentSlideNotes + ("  * " + k.Text() + "\n"));
      } else {
        assert rjs.currentSlideNotes + "" == rjs.currentSlideNotes;
      }
    }

    /** A `notes` directive with children: one notes bullet per titled child. */
    method ReadNotes(t: Topic)
      modifies this
      requires IsDirective(t) && t.Text() in {"notes", "note"}
      ensures St() == Directive(old(Cfg()), old(St()), t)
      ensures Cfg() == old(Cfg()) && style == old(style)
    {
      var kids := t.Kids();
      ghost var s0 := St();
      for i := 0 to |kids|
        invariant St() == s0.(currentSlideNotes := s0.currentSlideNotes + NotesOf(kids[..i]))
        invariant Cfg() == old(Cfg()) && style == old(style)
      {
        assert kids[..i + 1][..i] == kids[..i];
        AddNote(kids[i]);
        AppendAssoc(s0.currentSlideNotes, NotesOf(kids[..i]),
                    if kids[i].title.Some? then "  * " + kids[i].Text() + "\n" else "");
      }
      assert kids[..|kids|] == kids;
      rjs := rjs.(currentSlideEmpty := false);
    }

    /** One slide option, as the `switch ($option)` of `_readRevealNode` applies it. */
    method ApplySlideOption(o: Topic)
      modifies this
      ensures St() == ApplyOption(old(Cfg()), old(St()), o.Text())
      ensures Cfg() == old(Cfg()) && style == old(style)
    {
      var option := o.Text();
      if option == "no-footer" {
        option := " " + option + " ";
        assert "---- " + option == "----  no-footer ";
        rjs := rjs.(currentSlide := Replace(rjs.currentSlide, "---- ", "---- " + option));
      } else if option == "no-title" {
        rjs := rjs.(currentSlide := ClearFirstTitle(rjs.currentSlide, table.beforeH2, table.afterH2));
      } else if option == "start_map_here" {
        // `rjs["maptag"]` is never set, so it reads as nothing.
        rjs := rjs.(currentSlide := "\n" + rjs.currentSlide);
      }
      rjs := rjs.(currentSlideEmpty := false);
    }

    /** An `option` directive with children: each child's option in turn. */
    method ReadOptions(t: Topic)
      modifies this
      requires IsDirective(t) && t.Text() in {"option", "opt"}
      ensures St() == Directive(old(Cfg()), old(St()), t)
      ensures Cfg() == old(Cfg()) && style == old(style)
    {
      var kids := t.Kids();
      ghost var s0 := St();
      for i := 0 to |kids|
        invariant St() == ApplyOptions(Cfg(), s0, kids[..i])
        invariant Cfg() == old(Cfg()) && style == old(style)
      {
        assert kids[..i + 1][..i] == kids[..i];
        ApplySlideOption(kids[i]);
      }
      assert kids[..|kids|] == kids;
    }

    /** A `background` directive with children: the first child's title replaces every
        `:1px.png` of the open slide. */
    method ReadBackground(t: Topic)
      modifies this
      requires IsDirective(t) && t.Text() in {"background", "bg"}
      ensures St() == Directive(old(Cfg()), old(St()), t)
      ensures Cfg() == old(Cfg()) && style == old(style)
    {
      var bg := t.FirstChildTitle();
      rjs := rjs.(currentSlide := Replace(rjs.currentSlide, ":1px.png", bg));
      rjs := rjs.(currentSlideEmpty := false);
    }

    /** A reveal root opens a slide: the header, then an empty flag and no notes. */
    method StartSlide(level: int)
      modifies this
      ensures St() == OpenSlide(old(Cfg()), old(St()), level)
      ensures Cfg() == old(Cfg()) && style == old(style)
    {
      var header := SlideHeaderText(level);
      rjs := rjs.(currentSlide := rjs.currentSlide + header);
      rjs := rjs.(currentSlideEmpty := true);
      rjs := rjs.(currentSlideNotes := "");
    }

    /** A content node becomes a bullet of the open slide, indented by its depth below the root. */
    method AddContentLine(t: Topic, level: int)
      modifies this
      ensures St() == old(St()).(currentSlide := old(St()).currentSlide + Bullet(old(Cfg()), t, level))
      ensures Cfg() == old(Cfg()) && style == old(style)
    {
      var indent := LineIndent(level, 1);
      var withLf := BulletDecoration(t);
      AppendAssoc(indent, withLf, "\n");
      rjs := rjs.(currentSlide := rjs.currentSlide + (indent + withLf + "\n"));
    }

    /** The map step of a flush: the first slide that follows a new H2 adds a map tag to the deck
        and a bullet to the map. */
    method AddMapEntry()
      modifies this
      ensures var s := old(St());
              St() == if !Contains(s.presentationMap, s.lastH2)
                      then s.(revealOutput := s.revealOutput + MapTag,
                              presentationMap := s.presentationMap + "  * " + s.lastH2 + "\n")
                      else s
      ensures Cfg() == old(Cfg()) && style == old(style)
    {
      if !Contains(rjs.presentationMap, lastH2) {
        rjs := rjs.(output := rjs.output + MapTag);
        AppendAssoc(rjs.presentationMap + "  * ", lastH2, "\n");
        AppendAssoc(rjs.presentationMap, "  * ", lastH2 + "\n");
        rjs := rjs.(presentationMap := rjs.presentationMap + ("  * " + lastH2 + "\n"));
      }
    }

    /** The append step of a flush: the slide, its notes block when it has notes, and the
        closing line. */
    method AppendSlide()
      modifies this
      ensures var s := old(St());
              St() == s.(revealOutput := s.revealOutput + s.currentSlide
                                         + NotesBlock(s.currentSlideNotes) + SlideAfter + "\n")
      ensures Cfg() == old(Cfg()) && style == old(style)
    {
      var deck := rjs.output + rjs.currentSlide;
      if !PhpEmpty(rjs.currentSlideNotes) {
        var notes := rjs.currentSlideNotes;
        AppendAssoc4(deck, "\n\n\n", "<notes>\n", notes + "\n", "</notes>\n");
        assert "\n\n\n" + "<notes>\n" + (notes + "\n") + "</notes>\n" == NotesBlock(notes);
        deck := deck + "\n\n\n";
        deck := deck + "<notes>\n";
        deck := deck + (notes + "\n");
        deck := deck + "</notes>\n";
      } else {
        assert deck + NotesBlock(rjs.currentSlideNotes) == deck;
      }
      AppendAssoc(deck, SlideAfter, "\n");
      rjs := rjs.(output := deck + (SlideAfter + "\n"));
    }

    /** The end of `_readRevealNode` at level 0: flush the slide into the deck and reset it. */
    method FlushCurrentSlide()
      modifies this
      ensures St() == Flush(old(St()))
      ensures Cfg() == old(Cfg()) && style == old(style)
    {
      if !rjs.currentSlideEmpty {
        AddMapEntry();
        AppendSlide();
      }
      rjs := rjs.(currentSlide := "");
      rjs := rjs.(currentSlideNotes := "");
      rjs := rjs.(currentSlideEmpty := true);
    }

    /** `_readRevealNode`. */
    method ReadRevealNode(t: Topic, level: int)
      modifies this
      ensures St() == RevealNodeSpec(old(Cfg()), old(St()), t, level)
      ensures Cfg() == old(Cfg()) && style == old(style)
      decreases t, 2
    {
      var consumed := Consumed(t);
      if consumed {
        return;
      }
      if IsRevealNode(t.Text()) {
        // The root of a slide: its children are read from level 0 again.
        StartSlide(level);
        ReadRevealChildren(t, 0);
      } else if IsRevealCommand(t.Text()) {
        ReadRevealNodeCommand(t, level);
      } else {
        ReadRevealContent(t, level);
      }
    }

    /** `_readRevealNode` on a node that is neither consumed, a slide root nor a command: an empty
        title gives a blank line, a directive with children its effect, anything else a bullet;
        then come the children. */
    method ReadRevealContent(t: Topic, level: int)
      modifies this
      requires !Consume(St(), t).consumed && !IsRevealNode(t.Text()) && !IsRevealCommand(t.Text())
      ensures St() == RevealNodeSpec(old(Cfg()), old(St()), t, level)
      ensures Cfg() == old(Cfg()) && style == old(style)
      decreases t, 1
    {
      if PhpEmpty(t.Text()) {
        rjs := rjs.(currentSlide := rjs.currentSlide + "\n" + table.styleLf + "\n");
      } else {
        if t.Text() == "background" || t.Text() == "bg" {
          if t.children.Attached? {
            ReadBackground(t);
            return;
          }
        } else if t.Text() == "notes" || t.Text() == "note" {
          if t.children.Attached? {
            ReadNotes(t);
            return;
          }
        } else if t.Text() == "option" || t.Text() == "opt" {
          if t.children.Attached? {
            ReadOptions(t);
            return;
          }
        }
        AddContentLine(t, level);
      }
      rjs := rjs.(currentSlideEmpty := false);
      ReadRevealChildren(t, level);
    }

    /** The tail of `_readRevealNode`: the children one level deeper, then the flush when the
        call is at level 0. */
    method ReadRevealChildren(t: Topic, level: int)
      modifies this
      ensures St() == Close(RevealKids(old(Cfg()), old(St()), t, |t.Kids()|, level), level)
      ensures Cfg() == old(Cfg()) && style == old(style)
      decreases t, 0
    {
      ghost var s1 := St();
      var kids := t.Kids();
      for i := 0 to |kids|
        invariant St() == RevealKids(Cfg(), s1, t, i, level)
        invariant Cfg() == old(Cfg()) && style == old(style)
      {
        ReadRevealNode(kids[i], level + 1);
      }
      if level == 0 {
        FlushCurrentSlide();
      }
    }

    /** `_readRevealNodeCommand`: a command node stores its first child's title. */
    method ReadRevealNodeCommand(t: Topic, level: int)
      modifies this
      ensures St() == (if IsRevealCommand(t.Text()) then ReadCommand(old(St()), t) else old(St()))
      ensures Cfg() == old(Cfg()) && style == old(style)
    {
      if !IsRevealCommand(t.Text()) {
        return;
      }
      rjs := rjs.(values := rjs.values[Lower(t.Text()) := t.FirstChildTitle()]);
    }

    // ---------------------------------------------------------------------------------------
    // References

    /** The include line of every references page, each page marked `&nofooter&link` unless it
        already is, appended to `acc`. */
    method PageLines(acc: string) returns (refs: string)
      ensures refs == LinesOnto(acc, PageLine, extraRefs)
    {
      refs := acc;
      for i := 0 to |extraRefs|
        invariant refs == LinesOnto(acc, PageLine, extraRefs[..i])
      {
        assert extraRefs[..i + 1][..i] == extraRefs[..i];
        var page := extraRefs[i];
        if !Contains(page, "&nofooter&link") {
          page := Replace(page, "}}", "&nofooter&link}}");
        }
        refs := refs + (Replace(page, "{{refs>", "{{page>") + "\n");
      }
      assert extraRefs[..|extraRefs|] == extraRefs;
    }

    /** The refnote line of every identifier in `pmids`, appended to `acc`. */
    static method PmidLines(acc: string, pmids: seq<string>) returns (refs: string)
      ensures refs == LinesOnto(acc, PmidLine, pmids)
    {
      refs := acc;
      for k := 0 to |pmids|
        invariant refs == LinesOnto(acc, PmidLine, pmids[..k])
      {
        assert pmids[..k + 1][..k] == pmids[..k];
        refs := refs + ("[(P" + pmids[k] + ">{{pmid>" + pmids[k] + "}})]\n");
      }
      assert pmids[..|pmids|] == pmids;
    }

    /** Every manual reference as a line of its own, appended to `acc`. */
    method ManualLines(acc: string) returns (refs: string)
      ensures refs == LinesOnto(acc, ManualLine, manualRefs)
    {
      refs := acc;
      for i := 0 to |manualRefs|
        invariant refs == LinesOnto(acc, ManualLine, manualRefs[..i])
      {
        assert manualRefs[..i + 1][..i] == manualRefs[..i];
        refs := refs + (manualRefs[i] + "\n");
      }
      assert manualRefs[..|manualRefs|] == manualRefs;
    }

    /** The `$refs` text of `createPubmedRefNotes` and its `$includeRefs` flag: the preamble,
        the references pages, the sorted distinct PMIDs of both documents and the manual
        references, each group only when it is not empty. */
    method ReferencesText() returns (refs: string, includeRefs: bool)
      ensures refs == RefsText(extraRefs, output + rjs.output, manualRefs)
      ensures includeRefs == IncludeRefs(St())
    {
      includeRefs := false;
      refs := Preamble;
      if |extraRefs| > 0 {
        includeRefs := true;
        refs := PageLines(refs);
        refs := refs + "\n\n";
      }
      assert refs == PagesPart(extraRefs);
      var found := Pmids(output + rjs.output);
      if |found| > 0 {
        includeRefs := true;
        refs := PmidLines(refs, SortNumeric(Dedup(found)));
        refs := refs + "\n\n";
      }
      assert refs == PmidsPart(extraRefs, output + rjs.output);
      if |manualRefs| > 0 {
        includeRefs := true;
      }
      refs := ManualLines(refs);
    }

    /** The `in_array` loop over the citation tokens of the deck: the number of distinct ones. */
    method CountDistinctRefs() returns (n: nat)
      ensures n == DistinctRefs(rjs.output)
    {
      var tokens := RefTokens(rjs.output);
      n := 0;
      if |tokens| > 0 {
        n := |tokens|;
        var a: seq<string> := [];
        for i := 0 to |tokens|
          invariant a == Dedup(tokens[..i])
        {
          assert tokens[..i + 1][..i] == tokens[..i];
          if tokens[i] in a {
            continue;
          }
          a := a + [tokens[i]];
        }
        assert tokens[..|tokens|] == tokens;
        n := |a|;
      }
    }

    /** The summary slide of the bibliography: its heading, the two counts and the `refs` text. */
    method SummaryText(refs: string, n: nat, nSlides: nat) returns (summary: string)
      ensures summary == SummarySlide(Cfg(), refs, n, nSlides)
    {
      summary := "---- eric :1px.png bg-none none ---->\n";
      summary := summary + "\n";
      summary := summary + table.beforeH2;
      summary := summary + "Références bibliographiques";
      summary := summary + table.afterH2;
      summary := summary + "\n\n";
      summary := summary + "  * Nombre de références : ";
      summary := summary + NatToString(n);
      summary := summary + "\n\n";
      summary := summary + "  * Nombre de slides : ";
      summary := summary + NatToString(nSlides);
      summary := summary + "\n\n";
      summary := summary + "\n\n";
      summary := summary + refs;
      summary := summary + "\n";
      summary := summary + "<----\n\n";
    }

    /** The `i`-th of `nSlides` refnotes slides. */
    method RefPageText(i: nat, nSlides: nat) returns (page: string)
      ensures page == RefPage(Cfg(), i, nSlides)
    {
      page := "\n\n\n";
      page := page + "---- eric :1px.png bg-none none ---->\n";
      page := page + "\n";
      page := page + table.beforeH3;
      page := page + ("Références " + NatToString(i) + " / " + NatToString(nSlides));
      page := page + table.afterH3;
      page := page + "\n\n";
      page := page + "<WRAP references>~~REFNOTES 4~~</WRAP>\n";
      page := page + "<----\n\n";
    }

    /** The `nSlides` refnotes slides and the closing line breaks, appended to the deck. */
    method AppendRefPages(nSlides: nat)
      modifies this
      ensures St() == old(St()).(revealOutput := RefPagesOnto(old(rjs.output), Cfg(), nSlides, nSlides) + "\n\n\n")
      ensures Cfg() == old(Cfg()) && style == old(style)
    {
      ghost var s1 := St();
      for i := 0 to nSlides
        invariant St() == s1.(revealOutput := RefPagesOnto(s1.revealOutput, Cfg(), nSlides, i))
        invariant Cfg() == old(Cfg()) && style == old(style)
      {
        var page := RefPageText(i + 1, nSlides);
        rjs := rjs.(output := rjs.output + page);
      }
      rjs := rjs.(output := rjs.output + "\n\n\n");
    }

    /** The reference slides of the deck: a map entry and a map tag, the summary slide, then one
        refnotes slide per four distinct citations, rounded up, and three line breaks. */
    method AppendRefDeck(refs: string, n: nat)
      requires n > 0
      modifies this
      ensures var s := old(St());
              St() == s.(presentationMap := s.presentationMap + "  * Références bibliographiques\n",
                         revealOutput := RefDeckOnto(s.revealOutput, old(Cfg()), refs, n))
      ensures Cfg() == old(Cfg()) && style == old(style)
    {
      var nSlides := n / 4;
      if n % 4 > 0 {
        nSlides := nSlides + 1;
      }
      assert nSlides == CeilDiv4(n);
      var summary := SummaryText(refs, n, nSlides);
      // The map entry, the map placeholder and the summary slide.
      rjs := rjs.(presentationMap := rjs.presentationMap + "  * Références bibliographiques\n",
                  output := rjs.output + (MapTag + "\n\n") + summary);
      AppendRefPages(nSlides);
    }

    /** The bibliography `refs` added to the document and, for a non-empty deck citing
        references, the slides for them. */
    method AddReferences(refs: string)
      modifies this
      ensures St() == AddRefs(old(Cfg()), old(St()), refs, DistinctRefs(old(rjs.output)))
      ensures Cfg() == old(Cfg()) && style == old(style)
    {
      output := output + RefsHeading();
      output := output + (refs + "\n");
      output := output + RefsClosing();
      if !PhpEmpty(rjs.output) {
        var n := CountDistinctRefs();
        if n > 0 {
          AppendRefDeck(refs, n);
        }
      }
    }

    /** `createPubmedRefNotes`: the references section of the document and the reference slides
        of the deck, when there is anything to cite. */
    method CreatePubmedRefNotes()
      modifies this
      ensures St() == RefNotesSpec(old(Cfg()), old(St()))
      ensures Cfg() == old(Cfg()) && style == old(style)
    {
      var refs, includeRefs := ReferencesText();
      if includeRefs {
        AddReferences(refs);
      }
    }

    // ---------------------------------------------------------------------------------------
    // The slide page

    /** The `mapTag` step of `_getPresentationMap`: with a map, every placeholder of the deck
        becomes the map slide. */
    method GetPresentationMap()
      modifies this
      ensures St() == InsertMap(old(St()))
      ensures Cfg() == old(Cfg()) && style == old(style)
    {
      if PhpEmpty(rjs.presentationMap) {
        return;
      }
      var slide := "\n\n";
      slide := slide + "---- eric fr:medical:cours:dugp_memoires:sitemap_rouge.svg ";
      slide := slide + "20% contain center right 35% bg-none none ---->\n";
      slide := slide + "===== Plan de la présentation =====\n\n";
      slide := slide + "<WRAP dugp_plan>\n";
      slide := slide + rjs.presentationMap;
      slide := slide + "</WRAP>";
      rjs := rjs.(output := Replace(rjs.output, MapTag, slide));
    }

    /** The page header and the title slide, from the values of the command nodes. */
    method TitleSlideText() returns (final: string)
      ensures final == TitleSlide(Cfg(), St())
    {
      var footer, titre, bandeau := Lookup(St(), "footer"), Lookup(St(), "titre"), Lookup(St(), "bandeau");
      var auteurs := Replace(Lookup(St(), "auteurs"), "\n", table.styleLf);
      var affiliation := Replace(Lookup(St(), "affiliation"), "\n", table.styleLf);
      var date := Replace(Lookup(St(), "date"), "\n", table.styleLf);
      // `$final` starts empty and first gets the page header.
      final := "~~REVEAL~~\n~~NOCACHE~~\n\n";
      final := final + ("<wrap footer>" + footer + "</wrap>\n\n");
      // The style format has no placeholder, so `sprintf` returns it unchanged.
      final := final + "---- eric :1px.png bg-none none no-footer ---->\n";
      final := final + (table.beforeH1 + titre + table.afterH1 + "\n\n");
      final := final + ("<WRAP name_red>" + auteurs + "</WRAP>\n\n");
      final := final + ("<WRAP name_place>" + affiliation + "</WRAP>\n\n");
      final := final + ("<WRAP date>" + date + "</WRAP>\n\n");
      final := final + ("<WRAP first_footer>{{ " + bandeau + "?nolink }}</WRAP>\n\n");
    }

    /** `__prepareRevealOutput`: the page around a non-empty deck, which also becomes the deck. */
    method PrepareRevealOutput() returns (r: string)
      modifies this
      ensures r == PrepareReveal(old(Cfg()), old(St()))
      ensures St() == if PhpEmpty(old(rjs.output)) then old(St()) else old(St()).(revealOutput := r)
      ensures Cfg() == old(Cfg()) && style == old(style)
    {
      if PhpEmpty(rjs.output) {
        return "";
      }
      var final := TitleSlideText();
      final := final + rjs.output;
      if !PhpEmpty(Lookup(St(), "extrastyle")) {
        final := final + (Lookup(St(), "extrastyle") + "\n\n");
      } else {
        assert final + Closing(St()) == final;
      }
      rjs := rjs.(output := final);
      r := final;
    }

    /** `_getRevealOutput`: for a non-empty deck, the map step and then the page. */
    method GetRevealOutput() returns (r: string)
      modifies this
      ensures r == if PhpEmpty(old(rjs.output)) then "" else PrepareReveal(old(Cfg()), InsertMap(old(St())))
      ensures St() == RevealPageSpec(old(Cfg()), old(St()))
      ensures Cfg() == old(Cfg()) && style == old(style)
    {
      if !PhpEmpty(rjs.output) {
        GetPresentationMap();
        r := PrepareRevealOutput();
        return;
      }
      return "";
    }
  }
}
