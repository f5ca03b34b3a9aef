/** The last steps on the slide deck: the presentation map replaces every placeholder, and the
    title slide and the page header are put in front. */
module Assembly {
  import opened Strings
  import opened Styles
  import opened Render

  /** The value stored by a command node, or `""` when the command never appeared. */
  function Lookup(s: State, key: string): string {
    if key in s.commands then s.commands[key] else ""
  }

  /** The slide holding the map of the presentation. */
  function MapSlide(plan: string): string {
    "\n\n"
    + "---- eric fr:medical:cours:dugp_memoires:sitemap_rouge.svg "
    + "20% contain center right 35% bg-none none ---->\n"
    + "===== Plan de la présentation =====\n\n"
    + "<WRAP dugp_plan>\n"
    + plan
    + "</WRAP>"
  }

  /** The placeholder step of `_getPresentationMap`: without a map nothing happens, otherwise every
      placeholder in the deck becomes the map slide. */
  function InsertMap(s: State): State {
    if PhpEmpty(s.presentationMap) then s
    else s.(revealOutput := Replace(s.revealOutput, MapTag, MapSlide(s.presentationMap)))
  }

  /** A deck without placeholders is left as it is, and nothing but the deck changes. */
  lemma InsertMapFrame(s: State)
    ensures InsertMap(s) == s.(revealOutput := InsertMap(s).revealOutput)
    ensures !Contains(s.revealOutput, MapTag) ==> InsertMap(s) == s
  {
    if !Contains(s.revealOutput, MapTag) {
      ReplaceAbsent(s.revealOutput, MapTag, MapSlide(s.presentationMap));
    }
  }

  /** The first placeholder of the deck, before which no other placeholder starts, is where the
      map slide goes; the rest of the deck is processed in the same way. */
  lemma InsertMapAtTag(s: State, before: string, after: string)
    requires !PhpEmpty(s.presentationMap)
    requires s.revealOutput == before + MapTag + after
    requires forall k :: 0 <= k < |before| ==> !StartsWith((before + MapTag + after)[k..], MapTag)
    ensures InsertMap(s).revealOutput
            == before + MapSlide(s.presentationMap) + Replace(after, MapTag, MapSlide(s.presentationMap))
  {
    var slide := MapSlide(s.presentationMap);
    assert before + MapTag + after == before + (MapTag + after);
    ReplaceSkipNoMatch(before, MapTag + after, MapTag, slide);
    ReplaceHead(MapTag, after, slide);
  }

  /** The page header, the title slide and the closing style that surround the deck. */
  function TitleSlide(c: Conf, s: State): string {
    var t := c.table;
    "~~REVEAL~~\n~~NOCACHE~~\n\n"
    + ("<wrap footer>" + Lookup(s, "footer") + "</wrap>\n\n")
    + "---- eric :1px.png bg-none none no-footer ---->\n"
    + (t.beforeH1 + Lookup(s, "titre") + t.afterH1 + "\n\n")
    + ("<WRAP name_red>" + Replace(Lookup(s, "auteurs"), "\n", t.styleLf) + "</WRAP>\n\n")
    + ("<WRAP name_place>" + Replace(Lookup(s, "affiliation"), "\n", t.styleLf) + "</WRAP>\n\n")
    + ("<WRAP date>" + Replace(Lookup(s, "date"), "\n", t.styleLf) + "</WRAP>\n\n")
    + ("<WRAP first_footer>{{ " + Lookup(s, "bandeau") + "?nolink }}</WRAP>\n\n")
  }

  /** The page closing: the extra style when one was given; `outputEnd` is empty. */
  function Closing(s: State): string {
    var extra := Lookup(s, "extrastyle");
    if !PhpEmpty(extra) then extra + "\n\n" else ""
  }

  /** `__prepareRevealOutput`: nothing for an empty deck, otherwise the deck between its title
      slide and its closing. */
  function PrepareReveal(c: Conf, s: State): string {
    if PhpEmpty(s.revealOutput) then ""
    else TitleSlide(c, s) + s.revealOutput + Closing(s)
  }

  /** `_getRevealOutput`: for a non-empty deck, the map step and then the page; the page step
      checks the deck again, and a non-empty deck then holds the page. */
  function RevealPageSpec(c: Conf, s: State): State {
    if PhpEmpty(s.revealOutput) then s
    else
      var m := InsertMap(s);
      if PhpEmpty(m.revealOutput) then m else m.(revealOutput := PrepareReveal(c, m))
  }

  /** The page is empty exactly for an empty deck; otherwise it opens with the RevealJS switches,
      holds the deck whole, and ends with it unless an extra style follows. */
  lemma PrepareRevealFrames(c: Conf, s: State)
    ensures PrepareReveal(c, s) == "" <==> PhpEmpty(s.revealOutput)
    ensures !PhpEmpty(s.revealOutput) ==>
              && StartsWith(PrepareReveal(c, s), "~~REVEAL~~\n~~NOCACHE~~\n\n")
              && Contains(PrepareReveal(c, s), s.revealOutput)
              && (PhpEmpty(Lookup(s, "extrastyle")) ==>
                    PrepareReveal(c, s) == TitleSlide(c, s) + s.revealOutput)
  {
    if !PhpEmpty(s.revealOutput) {
      var page := PrepareReveal(c, s);
      var head := TitleSlide(c, s);
      assert |page| > 0;
      assert head[..|"~~REVEAL~~\n~~NOCACHE~~\n\n"|] == "~~REVEAL~~\n~~NOCACHE~~\n\n";
      assert page[..|head|] == head;
      ContainsInfix(head, s.revealOutput, Closing(s));
      if PhpEmpty(Lookup(s, "extrastyle")) {
        assert page == head + s.revealOutput + "";
      }
    }
  }

  /** The `style` command has no effect on the page: its format string has no placeholder. */
  lemma StyleUnused(c: Conf, s: State, v: string)
    ensures PrepareReveal(c, s.(commands := s.commands["style" := v])) == PrepareReveal(c, s)
  {
    var s' := s.(commands := s.commands["style" := v]);
    LookupOther(s, v, "footer");
    LookupOther(s, v, "titre");
    LookupOther(s, v, "auteurs");
    LookupOther(s, v, "affiliation");
    LookupOther(s, v, "date");
    LookupOther(s, v, "bandeau");
    LookupOther(s, v, "extrastyle");
    assert TitleSlide(c, s') == TitleSlide(c, s);
    assert Closing(s') == Closing(s);
  }

  lemma LookupOther(s: State, v: string, key: string)
    requires key != "style"
    ensures Lookup(s.(commands := s.commands["style" := v]), key) == Lookup(s, key)
  {
  }

  /** Line breaks in the author, affiliation and date fields are all turned into the style's
      line-break token, provided that token holds none. */
  lemma TitleFieldsOneLine(c: Conf, s: State, key: string)
    requires forall k :: 0 <= k < |c.table.styleLf| ==> c.table.styleLf[k] != '\n'
    ensures var f := Replace(Lookup(s, key), "\n", c.table.styleLf);
            forall k :: 0 <= k < |f| ==> f[k] != '\n'
  {
    ReplaceCharRemoves(Lookup(s, key), '\n', c.table.styleLf);
  }
}
