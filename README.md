# XMindToMD in Dafny

A model of the exporter class `XMindToMD` of `xmindtomd.php`, with proofs about it. The exporter
walks an XMind mind map once. A mind map is a tree of topics: each topic has a title, ordered
`children.attached`, optional `style.properties` and optional `markers`. The walk builds two texts
by appending to fields of the object:

- a linear Dokuwiki or Markdown document (`readNode`): headings for the top levels and bullets
  below them;
- a RevealJS slide deck (`_readRevealNode`), one slide per subtree whose title is `rj`, `rjs`,
  `reveal` or `revealjs`, plus command nodes that store the title-slide fields.

Afterwards `createPubmedRefNotes` adds a bibliography to both texts. The bibliography collects
included reference pages, PubMed `[(P<digits>)]` citations (deduplicated and sorted numerically) and
manual `[(name>text)]` references. It also adds paginated reference slides to the deck.
`_getRevealOutput` then replaces each map placeholder with the map slide and wraps the deck in its
title slide.

The project has two layers.

- **Value layer.** These modules are functions on values:
  - `Strings`, `Topics` and `Styles`: the PHP string operations, the topic tree, the dialect
    table and indentation.
  - `Patterns`: one dedicated matcher for each regular expression the exporter uses.
  - `Render`: the two walkers as state-to-state functions.
  - `References`: the bibliography.
  - `Assembly`: the map and page step.
  - `FileNames`: the output file names.

  `RenderFacts` and the lemmas in each module prove what these functions promise.
- **Object layer.** `Exporter.XMindToMD` is a class whose fields are the exporter's fields.
  - Its methods update those fields statement by statement, as the PHP methods do.
  - The loops over children, notes, options, markers, pages, PMIDs and reference slides are
    `for` loops with invariants.
  - Each method's `ensures` ties the new fields to the value layer applied to the old fields.
    `St()` packs the fields the walk writes; `Cfg()` packs the style table and `nheaders`.

PHP's `empty()` is modelled as `PhpEmpty`: the string is `""` or `"0"`. PHP 8's
`strpos(...) !== false` is modelled as `Contains`, where the empty needle is always found.

## Model

| member | source | states |
|---|---|---|
| Styles.Dialect | xmindtomd.php:277-310 | a table is chosen exactly for the lower-cased names `doku` and `md`; it is the Dokuwiki one exactly for `doku` and the Markdown one exactly for `md`; other names leave the fields alone |
| Styles.DialectHeadingsNest | xmindtomd.php:278-309 | Dokuwiki closes each of H1, H2 and H3 with the mirror of its opener, and its openers shrink from H1 to H3; Markdown's openers grow from H1 to H3 and it has no closers |
| Styles.IndentUnits | xmindtomd.php:318-321 | the indentation unit count is 0 exactly at `level == maxHeaders - 1`; from there on it is `level - maxHeaders + 1`; below it, 1 |
| Styles.LineIndent | xmindtomd.php:318-323 | the bullet prefix is `2·i` blanks followed by `"* "` |
| Styles.LineIndentGrows | xmindtomd.php:318-323 | from the crossover level on, one level deeper adds exactly one two-blank unit in front |
| Styles.LineIndentDips | xmindtomd.php:318-323 | the prefix at `maxHeaders - 2` is `"  * "` but at `maxHeaders - 1` only `"* "`, because 0 is not clamped |
| Styles.EmphasisCases | xmindtomd.php:696-714 | bold exactly when the weight is `bold`; italic only when the weight is absent or PHP-empty and the style is `italic`; never both; otherwise the text is unchanged |
| Strings.LowerIdempotent | xmindtomd.php:566-569 | lower-casing a lower-cased title changes nothing, so a title compared case-insensitively reads the same however often it is lowered |
| Strings.NatToStringRoundTrip | xmindtomd.php:455-467 | the decimal counts and slide numbers written into the deck read back as the number they print |
| Render.ExtraPage | xmindtomd.php:532-544 | a node is taken as an extra page exactly when its title starts, case-sensitively, with `{{page>` or `{{refs>` |
| Render.OnlyReference | xmindtomd.php:549-556 | a node is taken as a manual reference exactly when some line of its title matches `[(name>text)]` |
| Render.ConsumeRegisters | xmindtomd.php:532-556 | a `{{page>` title goes verbatim to the end of both documents; a `{{refs>` title goes to the end of `extraRefs`; otherwise a manual reference goes to the end of `manualRefs`; an unclassified node changes nothing |
| Render.ClassifiersIgnoreCase | xmindtomd.php:565-574 | the reveal-root and command tests give the same answer for a title and for its lower-cased form |
| Render.HeadingLevel | xmindtomd.php:223-260 | with the switch's fall-through, a node at level d in 0..2 gets heading H(d+1) exactly when `nheaders > d`; every other node, including all deeper ones, gets a bullet |
| Render.EmitHeadings | xmindtomd.php:219-260 | H1 sets `lastH1` and clears `lastH2`/`lastH3`; H2 sets `lastH2` and clears `lastH3`; H3 sets `lastH3`; a heading's text never spans lines; a bullet is indent + title in dialect line breaks; nothing else changes |
| Render.SlideBeforeSlots | xmindtomd.php:766-781 | for every store of command values, the slide opening line is `---- style :1px.png bg-anim slide-transition ---->`, each slot holding its stored value when that is set and not PHP-empty and nothing otherwise; the line always starts with the `---- ` that `no-footer` marks and holds the `:1px.png` that a background replaces |
| Render.FlushSlide | xmindtomd.php:740-763 | after a flush the slide buffers are reset; the deck gains the slide, its notes block and `<----` exactly when the slide is not empty; the map then names `lastH2`, and gains one bullet and the deck one placeholder only when `lastH2` was not in the map already |
| RenderFacts.ReadNodeOutline | xmindtomd.php:209-267 | on a subtree with no special titles, `readNode` appends exactly the pre-order outline of the tree: each node's text, then its children in `attached` order one level deeper |
| RenderFacts.ConsumedSkipsChildren | xmindtomd.php:211-214 | a node taken by a classifier is not descended into: both walkers give the same result whatever its children are |
| RenderFacts.ReadNodeGrows | xmindtomd.php:209-267 | `readNode` only appends: the old documents, map and registries are prefixes of the new ones |
| RenderFacts.RevealNodeGrows | xmindtomd.php:576-764 | the slide compiler only appends to the documents, the map and the registries |
| RenderFacts.RevealKeepsLinear | xmindtomd.php:576-764 | inside a reveal subtree with no `{{page>` title, the linear document and its last headings are untouched |
| RenderFacts.RevealRootCloses | xmindtomd.php:583-598 | a reveal root opens a slide and, when its call unwinds, leaves no slide open at any depth; if anything went into the slide, the map names `lastH2` |
| RenderFacts.NoBraceNotPage | xmindtomd.php:533-539 | a title without `{` is never an extra page |
| RenderFacts.NoBracketNotManual | xmindtomd.php:550 | a title without `[` is never a manual reference |
| RenderFacts.WordNotConsumed | xmindtomd.php:532-574 | a non-empty lower-case ASCII word is taken by no classifier, is not PHP-empty, and is its own lower-cased form |
| RenderFacts.CommandStores | xmindtomd.php:810-815 | a command node stores its first child's title under the lower-cased name, keeps every other stored value and changes nothing else |
| RenderFacts.DirectiveWords | xmindtomd.php:612-634 | the directive names are taken by no classifier, are not reveal roots or commands, and are not empty |
| RenderFacts.NoTitleClearsHeader | xmindtomd.php:586-657 | a new slide's header ends the opening line with one line break, then holds the title line `beforeH2 + lastH2 [+ " - " + lastH3] + afterH2`; a `no-title` option applied to that slide, in either dialect and with one-line headings and stored values, clears exactly that line's text, leaving its delimiters with one blank between, and keeps the opening line and everything after it |
| RenderFacts.OtherOptionEffects | xmindtomd.php:644-661 | on a slide with one opening `---- `, `no-footer` turns it into `----  no-footer ` and changes nothing else; `start_map_here` puts one line break in front of the slide; an unknown option keeps the slide text; every option marks the slide non-empty and leaves the other buffers alone |
| RenderFacts.DirectiveEffect | xmindtomd.php:612-666 | a directive with children emits no bullet and does not descend; only the slide, its notes and its flag change; `background` replaces every `:1px.png`; `notes` adds one notes bullet per titled child; the flag is cleared unless it is an option node without children |
| RenderFacts.NotesShallow | xmindtomd.php:627-630 | the notes a directive adds depend only on its children's titles |
| RenderFacts.OptionsShallow | xmindtomd.php:643-663 | the options a directive applies depend only on its children's titles |
| RenderFacts.DirectiveIgnoresGrandchildren | xmindtomd.php:612-666 | dropping the grandchildren of a directive node changes nothing |
| Patterns.ManualReferenceLine | xmindtomd.php:550 | a one-line title `[(name>text)]` with a non-empty name free of `>` is a manual reference |
| Patterns.ManualReferenceAnyLine | xmindtomd.php:550 | because of `/m`, a manual-reference line anywhere in a title qualifies it |
| Patterns.HighlightNoPipe | xmindtomd.php:674-677 | a text without `\|` is unchanged by the partial highlight |
| Patterns.HighlightSegment | xmindtomd.php:674-677 | a one-line `pre\|\|mid\|\|post` becomes `pre <wrap dugp_red>**mid**</wrap> post` |
| Patterns.HighlightSegmentMatch | xmindtomd.php:674-675 | the leftmost match of such a segment covers it whole, with the three groups in place |
| Patterns.ClearFirstTitleSkips | xmindtomd.php:652-657 | lines before the first title line are kept as they are |
| Patterns.ClearFirstTitleHits | xmindtomd.php:652-657 | the first title line keeps only its delimiters with one blank between them, and the rest of the slide is untouched |
| Patterns.PmidsDigits | xmindtomd.php:375-379 | every identifier found is a non-empty digit string |
| Patterns.PmidsSound | xmindtomd.php:375-379 | every identifier found has its citation `[(P d)]` in the text |
| Patterns.PmidsComplete | xmindtomd.php:375-379 | every citation `[(P d)]` in the text, at or after the scan position, is found |
| Patterns.PmidNoOverlap | xmindtomd.php:375 | two citation matches never overlap |
| Patterns.RefTokensFrom | xmindtomd.php:426-428 | every citation token found in the deck opens with `[(` and closes with `)]` |
| Patterns.PmidIsRefToken | xmindtomd.php:375-428 | a deck that holds a PMID citation holds at least one citation token |
| References.DedupSpec | xmindtomd.php:379 | `array_unique` keeps exactly the values of the list, each once, and leaves a list without repetitions unchanged |
| References.SortBy | xmindtomd.php:380 | the stable insertion sort keeps every element with its multiplicity |
| References.SortBySorted | xmindtomd.php:380 | the stable sort orders by its key and is a permutation |
| References.SortNumericSorted | xmindtomd.php:380 | the numeric sort orders by `Key`, the double `SORT_NUMERIC` compares for each identifier, and is a permutation |
| References.ShiftLowScale | xmindtomd.php:380 | the digit operations the conversion rounds with split `v` into quotient and remainder by `2^e` and put it back together |
| References.ToDoubleExact | xmindtomd.php:380 | a value below `2^53` converts to a double exactly |
| References.PowerIsDouble | xmindtomd.php:380 | every power `2^n` below `2^1024` is a double |
| References.PowerPlusOneRounds | xmindtomd.php:380 | from `n = 53` on, `2^n + 1` has no double of its own and converts to `2^n` |
| References.TiedPmidsKeepOrder | xmindtomd.php:380 | identifiers worth `2^n + 1` and `2^n`, `n` from 53 to 1023, given in that order, compare equal and the stable sort leaves them in that order |
| References.PmidListSpec | xmindtomd.php:375-385 | the PMID list holds exactly the cited identifiers, each once, ascending by their doubles, each a digit string whose citation occurs in the text |
| References.PmidListByValue | xmindtomd.php:375-385 | among identifiers below `2^53`, the PMID list ascends by exact value |
| References.PmidListComplete | xmindtomd.php:375-380 | a citation `[(P d)]` anywhere in the text puts `d` in the list |
| References.PageLineOfRefs | xmindtomd.php:365-369 | a page `{{refs>name}}` is included as `{{page>name&nofooter&link}}` |
| References.LinesOntoHas | xmindtomd.php:365-396 | every item of a group has its line in the bibliography text |
| References.CeilDiv4 | xmindtomd.php:442-443 | the slide count `k` is the least with `4k >= n`, and it is positive exactly when `n` is |
| References.RefPagesTitled | xmindtomd.php:462-471 | reference slides 1 to i carry the headings `Références j / k` for every j from 1 to i |
| References.RefNotesNothingToCite | xmindtomd.php:328-477 | the bibliography step changes nothing exactly when there are no pages, no PMID citations in either document and no manual references |
| References.RefNotesGrows | xmindtomd.php:328-477 | only the two documents and the map change, and each only grows |
| References.RefNotesCitesAll | xmindtomd.php:362-420 | every included page, every PMID cited in either document and every manual reference gets its line in the document's bibliography |
| References.OutputHasRefs | xmindtomd.php:415-420 | whatever the bibliography text holds ends up in the document |
| References.RefNotesSlides | xmindtomd.php:423-473 | the deck gets reference slides only when it is not empty and cites n > 0 distinct tokens; then there are `k = ceil(n/4)` of them, headed 1 to k of k, and the map gets the bibliography entry; otherwise the deck and the map are unchanged |
| References.SummaryShows | xmindtomd.php:449-460 | the summary slide opens with the slide line `---- eric :1px.png bg-none none ---->` and shows the heading in the dialect's H2 delimiters, `Nombre de références : n`, `Nombre de slides : k` and the bibliography text whole on lines of its own |
| References.DeckHasSummary | xmindtomd.php:440-473 | the reference deck shows both counts, with `k = ceil(n/4)`, and the bibliography text whole |
| References.DeckHasPages | xmindtomd.php:440-472 | the reference deck holds the heading of each of its `ceil(n/4)` slides |
| Assembly.InsertMapFrame | xmindtomd.php:820-830 | the map step changes only the deck, and a deck without placeholders is left as it is |
| Assembly.InsertMapAtTag | xmindtomd.php:830 | the first placeholder of the deck, whatever text precedes it, becomes the map slide, and the rest of the deck is processed in the same way |
| Assembly.PrepareRevealFrames | xmindtomd.php:852-900 | the page is empty exactly for an empty deck; otherwise it opens with the RevealJS switches, holds the deck whole, and ends with it unless an extra style follows |
| Assembly.StyleUnused | xmindtomd.php:863-864 | the stored `style` value has no effect on the page, because its format string has no placeholder |
| Assembly.TitleFieldsOneLine | xmindtomd.php:870-880 | the author, affiliation and date fields hold no newline on the page, provided the dialect's line break holds none |
| FileNames.LastDot | xmindtomd.php:523 | the position found holds a dot and no dot follows it; without a position there is no dot |
| FileNames.NamesFromInput | xmindtomd.php:509-525 | without a non-empty `-o`, a non-empty `-f stem` and the extension `.e` give the document `stem.e` and the deck `stem_revealjs.e`, even when `stem` holds dots |
| FileNames.DocumentAndDeckDiffer | xmindtomd.php:509-525 | for any options, the deck's name is nine characters longer than the document's, so the two are never the same file |
| FileNames.RevealNameExtension | xmindtomd.php:522-525 | the deck's name for `stem.ext` is `stem_revealjs.ext` |
| FileNames.RevealNameInverse | xmindtomd.php:522-525 | the deck's name is the document's name with `_revealjs` inserted once, before the last dot or in front; removing it gives the document's name back |
| FileNames.RevealNameKeepsExtension | xmindtomd.php:522-525 | the deck's file keeps the document's extension |
| FileNames.LastDotIs | xmindtomd.php:523 | a dot followed only by other characters is the one `strrpos` finds |
| Exporter.XMindToMD.constructor | xmindtomd.php:22-80 | a new exporter has empty buffers and registries, no slide open, the initial style table and two heading levels |
| Exporter.XMindToMD.SetStyle | xmindtomd.php:275-311 | the name is kept as given; a known dialect, ignoring case, sets the whole table; any other name keeps the table; no buffer changes |
| Exporter.XMindToMD.IsExtraPage | xmindtomd.php:532-544 | the answer and the new buffers are those of `Render.ExtraPage` |
| Exporter.XMindToMD.IsOnlyReference | xmindtomd.php:549-556 | the answer and the new buffers are those of `Render.OnlyReference` |
| Exporter.XMindToMD.Consumed | xmindtomd.php:211-214 | the short-circuit `\|\|` of the two classifiers: the reference test runs only when the page test fails |
| Exporter.XMindToMD.AppendHeading | xmindtomd.php:226-230 | a heading line between blank lines is appended to the document, and nothing else changes |
| Exporter.XMindToMD.EmitNode | xmindtomd.php:219-260 | the switch writes the heading or bullet and tracks the last headings, as `Render.Emit` (whose cases `Render.EmitHeadings` states) |
| Exporter.XMindToMD.ReadNode | xmindtomd.php:209-267 | the buffers afterwards are `Render.ReadNodeSpec` of the buffers before, so the pre-order, growth and classifier lemmas apply to the object |
| Exporter.XMindToMD.SlideHeaderText | xmindtomd.php:586-595 | the appends build the header `OpenSlide` adds, whose title line and its clearing by `no-title` `RenderFacts.NoTitleClearsHeader` states |
| Exporter.XMindToMD.BulletDecoration | xmindtomd.php:669-714 | the bullet text is the title in dialect line breaks, highlighted, wrapped once in red per `tag-red` marker, then emphasised |
| Exporter.XMindToMD.AddNote | xmindtomd.php:628-629 | a titled child adds one notes bullet; an untitled one adds nothing |
| Exporter.XMindToMD.ReadNotes | xmindtomd.php:622-633 | the loop over a notes directive's children has the effect `Render.Directive` gives it |
| Exporter.XMindToMD.ApplySlideOption | xmindtomd.php:644-662 | one option edits the slide as its case says and marks the slide non-empty, known or not |
| Exporter.XMindToMD.ReadOptions | xmindtomd.php:634-665 | the loop over an option directive's children applies each option in order |
| Exporter.XMindToMD.ReadBackground | xmindtomd.php:612-621 | the first child's title replaces every `:1px.png` of the open slide, which becomes non-empty |
| Exporter.XMindToMD.StartSlide | xmindtomd.php:583-598 | a reveal root appends the slide header and clears the empty flag and the notes |
| Exporter.XMindToMD.AddContentLine | xmindtomd.php:725 | a content node's decorated bullet, indented by its depth below the root, is appended to the open slide |
| Exporter.XMindToMD.AddMapEntry | xmindtomd.php:743-746 | the map gains a bullet for `lastH2`, and the deck a placeholder, exactly when `lastH2` is not yet in the map |
| Exporter.XMindToMD.AppendSlide | xmindtomd.php:748-757 | the slide, its notes block when it has notes, and the slide end are appended to the deck |
| Exporter.XMindToMD.FlushCurrentSlide | xmindtomd.php:740-763 | the flush has the effect of `Render.Flush`, whose properties `Render.FlushSlide` states |
| Exporter.XMindToMD.ReadRevealNode | xmindtomd.php:576-764 | the buffers afterwards are `Render.RevealNodeSpec` of the buffers before, so the slide, directive and growth lemmas apply to the object |
| Exporter.XMindToMD.ReadRevealContent | xmindtomd.php:607-737 | an empty title adds a line break, a directive with children acts without descending, any other node adds its bullet; the children follow, then the flush at level 0 |
| Exporter.XMindToMD.ReadRevealChildren | xmindtomd.php:732-763 | the children are compiled in order one level deeper, then the slide is flushed when the call is at level 0 |
| Exporter.XMindToMD.ReadRevealNodeCommand | xmindtomd.php:810-815 | a command name stores its first child's title under the lower-cased name; any other title changes nothing |
| Exporter.XMindToMD.PageLines | xmindtomd.php:365-370 | the loop appends the include line of every references page, in order |
| Exporter.XMindToMD.PmidLines | xmindtomd.php:383-385 | the loop appends the refnote line of every identifier, in order |
| Exporter.XMindToMD.ManualLines | xmindtomd.php:394-396 | the loop appends every manual reference as a line of its own, in order |
| Exporter.XMindToMD.ReferencesText | xmindtomd.php:330-411 | the bibliography text is the preamble and the three groups, and the flag is set exactly when some group is non-empty |
| Exporter.XMindToMD.CountDistinctRefs | xmindtomd.php:425-436 | the `in_array` loop counts the distinct citation tokens of the deck |
| Exporter.XMindToMD.SummaryText | xmindtomd.php:450-460 | the appends build the summary slide, whose opening line, heading, counts and bibliography text `References.SummaryShows` states |
| Exporter.XMindToMD.RefPageText | xmindtomd.php:463-470 | the i-th reference slide is headed `Références i / nSlides` |
| Exporter.XMindToMD.AppendRefPages | xmindtomd.php:462-472 | the loop appends reference slides 1 to nSlides and the closing line breaks |
| Exporter.XMindToMD.AppendRefDeck | xmindtomd.php:440-473 | for n > 0 citations, the map gains the bibliography entry and the deck the placeholder, the summary and `ceil(n/4)` slides |
| Exporter.XMindToMD.AddReferences | xmindtomd.php:415-475 | the document gains the references section; a non-empty deck that cites something gains the reference slides |
| Exporter.XMindToMD.CreatePubmedRefNotes | xmindtomd.php:328-477 | the buffers afterwards are `References.RefNotesSpec` of the buffers before, so the completeness, slide-count and growth lemmas apply to the object |
| Exporter.XMindToMD.GetPresentationMap | xmindtomd.php:820-830 | with a map, every placeholder of the deck becomes the map slide; otherwise nothing changes |
| Exporter.XMindToMD.TitleSlideText | xmindtomd.php:855-883 | the page header and title slide are built from the stored command values, unset ones read as empty |
| Exporter.XMindToMD.PrepareRevealOutput | xmindtomd.php:852-900 | an empty deck gives `""` and is kept; otherwise the page is returned and becomes the deck |
| Exporter.XMindToMD.GetRevealOutput | xmindtomd.php:794-801 | an empty deck gives `""` and changes nothing; otherwise the map step runs, then the page step, which checks the deck again |

## Left out

- `readCLIOptions` (xmindtomd.php:95-152) reads `getopt`, prints help and exits. It is not part
  of this model, so the constructor leaves the initial style and `nheaders == 2`. The style comes
  in through `SetStyle`. `readCLIOptions` always calls `setStyle("md")` before it looks at `-d`/`-m`
  (xmindtomd.php:140-145), so the walk never runs with the constructor's initial empty table. A
  non-empty `-l` stores `nheaders` as the option's string (xmindtomd.php:148-150); the model takes
  `nheaders` as an integer. The `-o`/`-f` values are parameters of `FileNames.OutputFileName`.
- `runExport` (xmindtomd.php:157-198) checks files, extracts the zip archive and decodes JSON. The
  decoded topic tree is an input of the model (`Topics.Topic`).
- `saveOutput` (xmindtomd.php:482-501) and every progress `echo` are file writes and console
  output.
- `_hasRevealOutput` (xmindtomd.php:787-792) is called from `saveOutput` (xmindtomd.php:492), which
  is left out with it.
- The bolding pass of `_getPresentationMap` (xmindtomd.php:833-849) is left out. It builds a regular
  expression from unescaped heading text, so its effect depends on PCRE metacharacters in user
  titles. Only the placeholder replacement at xmindtomd.php:830 is modelled.
- There is no general regular-expression engine. Each of the five patterns (xmindtomd.php:375, 426,
  550, 653, 674) has a dedicated matcher that follows PCRE's leftmost, greedy and `/m` rules for
  that pattern.
- `Patterns.ClearFirstTitle` treats the heading delimiters of `no-title` literally. That holds for
  both dialects' delimiters and the initial empty ones, but not for arbitrary delimiters that
  contain metacharacters.
- PHP's undefined-key notices are not modelled: an unset `rjs` entry reads as `""`
  (xmindtomd.php:659, 859-883). A command node without children stores `""`, because PHP would
  read the title of a missing child as null. A topic without a title reads as `""`.
- A topic's title is `Option<string>`, which cannot tell a missing `title` key from a JSON `null`.
  A note child whose title is `null` passes `property_exists` and adds `"  * \n"` in PHP
  (xmindtomd.php:628-629); the model takes it as absent and adds nothing.
- Strings are sequences of characters, not bytes. `strtolower` lower-cases ASCII letters only,
  without locale. `PHP_EOL` is `"\n"`.
- `trim` on a PMID (xmindtomd.php:384) is the identity, since every PMID found is a digit string
  (`Patterns.PmidsDigits`).
- Each `sprintf` format with one `%s` is written as concatenation. The footer format
  (xmindtomd.php:61) and the `outputStart`/`outputEnd` constants are inlined in
  `Assembly.TitleSlide` and `Assembly.PrepareReveal`.
- Integers are unbounded. The counts involved (references, slides) are far below PHP's 64-bit
  limit.
- The fixed templates are text constants: the refnotes preamble (xmindtomd.php:333-359), the map
  slide (xmindtomd.php:823-829) and the slide templates.
- The style fields and the `rjs` entries are grouped as two record-valued fields, `table` and
  `rjs`. Each PHP assignment to one of them is one record update. The `rjs` constants (command
  names, `mapTag`, templates) are Dafny constants.
- RenderFacts.NoTitleClearsHeader: stated for the Dokuwiki and Markdown tables and for headings
  and stored slide values without line breaks; otherwise the first line that matches the
  `no-title` pattern can lie elsewhere in the header, and the lemma says nothing about it.
- References.RefNotesSlides: states that each reference-slide heading 1 to k of k is present and
  that the count is `ceil(n/4)`; that exactly k slides are appended is stated by
  `Exporter.XMindToMD.AppendRefDeck` and `References.RefDeckOnto`, not by this lemma.

Behaviour of the code worth noting:

- Headings stop at H3: levels 3 and deeper always fall to the bullet case, whatever `nheaders` is.
- The `{{page>`/`{{refs>` test is case-sensitive, because `strtolower` is applied to the boolean
  result of the comparison.
- `start_map_here` reads the unset entry `maptag`, not `mapTag`, so it prepends only a line break.
- A `background`, `notes` or `option` node without children is emitted as an ordinary bullet.
- The map test is a substring test. An empty `lastH2` always counts as already in the map, which is
  PHP 8's `strpos` behaviour for an empty needle.
- `__prepareRevealOutput` checks the deck for emptiness again after the map step (xmindtomd.php:853),
  and `Assembly.RevealPageSpec` keeps that second check.
- `sort($pmids, SORT_NUMERIC)` compares the doubles of the identifiers. From `2^53` on, distinct
  identifiers can convert to the same double; they then compare equal and keep their order, as
  `[(P9007199254740993)]` before `[(P9007199254740992)]` does (`References.TiedPmidsKeepOrder`).
- The title-slide fields are emitted even when unset, and the `style` value is never used on the
  page.
