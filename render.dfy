/** The value-level semantics of one pass over the topic tree: the linear renderer `readNode`, the
    classifiers it shares with the slide compiler, and the slide compiler `_readRevealNode`. Each
    function maps the exporter's buffers before a call to the buffers after it. */
module Render {
  import opened Wrappers
  import opened Strings
  import opened Topics
  import opened Styles
  import opened Patterns

  /** What the pass reads but never writes: the dialect table and `nheaders`. */
  datatype Conf = Conf(table: StyleTable, nheaders: int)

  /** The buffers the pass appends to: the linear document and its last headings, the two
      reference registries, and the `rjs` entries of the slide deck (`output`, `currentSlide`,
      `currentSlideEmpty`, `currentSlideNotes`, `map` and the stored command values). */
  datatype State = State(
    output: string, lastH1: string, lastH2: string, lastH3: string,
    extraRefs: seq<string>, manualRefs: seq<string>,
    revealOutput: string, currentSlide: string, currentSlideEmpty: bool,
    currentSlideNotes: string, presentationMap: string,
    commands: map<string, string>)

  /** The buffers of a fresh exporter. */
  const Start := State("", "", "", "", [], [], "", "", true, "", "", map[])

  /** The placeholder that a map slide later replaces (`rjs["mapTag"]`). */
  const MapTag := "%%revealjs_map_tag%%"

  /** Whether a classifier consumed the node, and the buffers after it. */
  datatype Visit = Visit(consumed: bool, after: State)

  // ---------------------------------------------------------------------------------------
  // Classifiers

  /** `_isExtraPage`: a `{{page>` title is copied into both documents, a `{{refs>` title is
      registered as a references page. The prefix test is case-sensitive, since `strtolower`
      is applied to the result of the comparison rather than to the title. */
  function ExtraPage(s: State, t: Topic): (v: Visit)
    ensures v.consumed <==> StartsWith(t.Text(), "{{page>") || StartsWith(t.Text(), "{{refs>")
  {
    if StartsWith(t.Text(), "{{page>") then
      Visit(true, s.(output := s.output + t.Text() + "\n",
                     revealOutput := s.revealOutput + "\n" + t.Text() + "\n"))
    else if StartsWith(t.Text(), "{{refs>") then
      Visit(true, s.(extraRefs := s.extraRefs + [t.Text()]))
    else Visit(false, s)
  }

  /** `_isOnlyReference`: a title with a manual-reference line is registered. */
  function OnlyReference(s: State, t: Topic): (v: Visit)
    ensures v.consumed <==> IsManualReference(t.Text())
  {
    if IsManualReference(t.Text()) then Visit(true, s.(manualRefs := s.manualRefs + [t.Text()]))
    else Visit(false, s)
  }

  /** The `_isExtraPage(...) || _isOnlyReference(...)` test that opens both walkers. */
  function Consume(s: State, t: Topic): Visit {
    var v := ExtraPage(s, t);
    if v.consumed then v else OnlyReference(s, t)
  }

  /** A registered title lands at the end of exactly one registry, in visiting order; a node that
      is not consumed changes nothing. */
  lemma ConsumeRegisters(s: State, t: Topic)
    ensures var v := Consume(s, t);
            && (StartsWith(t.Text(), "{{page>") ==>
                  v.consumed && v.after == s.(output := s.output + t.Text() + "\n",
                                              revealOutput := s.revealOutput + "\n" + t.Text() + "\n"))
            && (StartsWith(t.Text(), "{{refs>") ==>
                  v.consumed && v.after == s.(extraRefs := s.extraRefs + [t.Text()]))
            && (!StartsWith(t.Text(), "{{page>") && !StartsWith(t.Text(), "{{refs>") ==>
                  v.consumed == IsManualReference(t.Text()) &&
                  v.after == (if v.consumed then s.(manualRefs := s.manualRefs + [t.Text()]) else s))
  {
  }

  /** `_isRevealNode`: the title is, ignoring ASCII case, one of the four reveal root names. */
  predicate IsRevealNode(title: string) {
    Lower(title) in {"rj", "rjs", "reveal", "revealjs"}
  }

  /** The command names of `rjs["commands"]`. */
  const Commands: set<string> := {"titre", "titrecourt", "titrelong", "auteurs", "affiliation",
    "date", "footer", "style", "bandeau", "extrastyle", "bg-anim", "slide-transition"}

  /** `_isRevealNodeCommand`: the lower-cased title is a command name. */
  predicate IsRevealCommand(title: string) {
    Lower(title) in Commands
  }

  /** Both classifications ignore ASCII case: a title and its lower-cased form are classified
      alike. */
  lemma ClassifiersIgnoreCase(title: string)
    ensures IsRevealNode(Lower(title)) == IsRevealNode(title)
    ensures IsRevealCommand(Lower(title)) == IsRevealCommand(title)
  {
    LowerIdempotent(title);
  }

  // ---------------------------------------------------------------------------------------
  // Linear renderer

  /** The switch of `readNode`, with its fall-through: the heading level (1 to 3) a node at
      `level` becomes, or 0 for a bullet. */
  function HeadingLevel(nheaders: int, level: int): (h: nat)
    ensures h == (if 0 <= level <= 2 && nheaders > level then level + 1 else 0)
  {
    if level == 0 && nheaders > 0 then 1
    else if 0 <= level <= 1 && nheaders > 1 then 2
    else if 0 <= level <= 2 && nheaders > 2 then 3
    else 0
  }

  /** The title with line breaks shown as " / " (headings and `lastH*`). */
  function WithoutLf(t: Topic): string {
    Replace(t.Text(), "\n", " / ")
  }

  /** The title with line breaks in the dialect's syntax (bullets). */
  function WithLf(c: Conf, t: Topic): string {
    Replace(t.Text(), "\n", c.table.styleLf)
  }

  /** What `readNode` writes for a node it renders (not for its children). */
  function NodeText(c: Conf, t: Topic, level: int): string {
    match HeadingLevel(c.nheaders, level)
    case 1 => "\n\n" + c.table.beforeH1 + WithoutLf(t) + c.table.afterH1 + "\n\n"
    case 2 => "\n\n" + c.table.beforeH2 + WithoutLf(t) + c.table.afterH2 + "\n\n"
    case 3 => "\n\n" + c.table.beforeH3 + WithoutLf(t) + c.table.afterH3 + "\n\n"
    case _ => LineIndent(level, c.nheaders) + WithLf(c, t) + "\n"
  }

  /** How `readNode` renders a node it does not skip: its text is appended and the last
      headings are tracked. */
  function Emit(c: Conf, s: State, t: Topic, level: int): State {
    var s1 := s.(output := s.output + NodeText(c, t, level));
    match HeadingLevel(c.nheaders, level)
    case 1 => s1.(lastH1 := WithoutLf(t), lastH2 := "", lastH3 := "")
    case 2 => s1.(lastH2 := WithoutLf(t), lastH3 := "")
    case 3 => s1.(lastH3 := WithoutLf(t))
    case _ => s1
  }

  /** A node at level d in {0, 1, 2} is the H(d+1) heading exactly when `nheaders > d`; every other
      node, including all deeper ones, is a bullet. Heading text never spans lines, and a new
      heading forgets the deeper ones. */
  lemma EmitHeadings(c: Conf, s: State, t: Topic, level: int)
    ensures var r := Emit(c, s, t, level);
            var b := c.table;
            && (level == 0 && c.nheaders > 0 ==>
                  r.output == s.output + ("\n\n" + b.beforeH1 + WithoutLf(t) + b.afterH1 + "\n\n")
                  && r.lastH1 == WithoutLf(t) && r.lastH2 == "" && r.lastH3 == "")
            && (level == 1 && c.nheaders > 1 ==>
                  r.output == s.output + ("\n\n" + b.beforeH2 + WithoutLf(t) + b.afterH2 + "\n\n")
                  && r.lastH1 == s.lastH1 && r.lastH2 == WithoutLf(t) && r.lastH3 == "")
            && (level == 2 && c.nheaders > 2 ==>
                  r.output == s.output + ("\n\n" + b.beforeH3 + WithoutLf(t) + b.afterH3 + "\n\n")
                  && r.lastH1 == s.lastH1 && r.lastH2 == s.lastH2 && r.lastH3 == WithoutLf(t))
            && (!(0 <= level <= 2 && c.nheaders > level) ==>
                  r.output == s.output + (LineIndent(level, c.nheaders) + WithLf(c, t) + "\n")
                  && r.lastH1 == s.lastH1 && r.lastH2 == s.lastH2 && r.lastH3 == s.lastH3)
            && r.(output := s.output, lastH1 := s.lastH1, lastH2 := s.lastH2, lastH3 := s.lastH3) == s
    ensures forall k :: 0 <= k < |WithoutLf(t)| ==> WithoutLf(t)[k] != '\n'
  {
    ReplaceCharRemoves(t.Text(), '\n', " / ");
    var h := HeadingLevel(c.nheaders, level);
    if level == 0 && c.nheaders > 0 {
      assert h == 1;
    } else if level == 1 && c.nheaders > 1 {
      assert h == 2;
    } else if level == 2 && c.nheaders > 2 {
      assert h == 3;
    } else {
      assert h == 0;
    }
  }

  /** `readNode`: skip consumed nodes, hand reveal roots to the slide compiler, otherwise render
      the node and then its children, in order, one level deeper. */
  function ReadNodeSpec(c: Conf, s: State, t: Topic, level: int): State
    decreases t, 2
  {
    var v := Consume(s, t);
    if v.consumed then v.after
    else if IsRevealNode(t.Text()) then RevealNodeSpec(c, s, t, level)
    else ReadKids(c, Emit(c, s, t, level), t, |t.Kids()|, level)
  }

  /** The first `n` children of `t` read by `readNode` at `level + 1`. */
  function ReadKids(c: Conf, s: State, t: Topic, n: nat, level: int): State
    requires n <= |t.Kids()|
    decreases t, 0, n
  {
    if n == 0 then s else ReadNodeSpec(c, ReadKids(c, s, t, n - 1, level), t.Kids()[n - 1], level + 1)
  }

  // ---------------------------------------------------------------------------------------
  // Slide compiler

  /** A stored command value, or "" when it is unset or PHP-empty (`_getSlideBefore`). */
  function Cmd(commands: map<string, string>, name: string): string {
    if name in commands && !PhpEmpty(commands[name]) then commands[name] else ""
  }

  /** `_getSlideBefore`: the slide opening line with the style, background animation and
      transition commands. */
  function SlideBefore(commands: map<string, string>): string {
    "---- " + Cmd(commands, "style") + " :1px.png " + Cmd(commands, "bg-anim") + " "
      + Cmd(commands, "slide-transition") + " ---->\n"
  }

  /** `_getSlideAfter`. */
  const SlideAfter := "<----\n\n"

  /** Each slot of the opening line holds its stored value when that value is set and not
      PHP-empty, and nothing otherwise; the line always starts with the `---- ` that `no-footer`
      marks and holds the `:1px.png` that a background replaces. */
  lemma SlideBeforeSlots(commands: map<string, string>)
    ensures var st := if "style" in commands && !PhpEmpty(commands["style"]) then commands["style"] else "";
            var bg := if "bg-anim" in commands && !PhpEmpty(commands["bg-anim"]) then commands["bg-anim"] else "";
            var tr := if "slide-transition" in commands && !PhpEmpty(commands["slide-transition"])
                      then commands["slide-transition"] else "";
            SlideBefore(commands) == "---- " + st + " :1px.png " + bg + " " + tr + " ---->\n"
    ensures StartsWith(SlideBefore(commands), "---- ")
    ensures Contains(SlideBefore(commands), ":1px.png")
  {
    var head := "---- " + Cmd(commands, "style") + " ";
    var tail := " " + Cmd(commands, "bg-anim") + " " + Cmd(commands, "slide-transition") + " ---->\n";
    assert SlideBefore(commands) == head + ":1px.png" + tail;
    ContainsInfix(head, ":1px.png", tail);
    assert SlideBefore(commands)[..5] == head[..5] == "---- ";
  }

  /** What a reveal root writes into the current slide: the opening line and the title, which is
      the last H2, followed by the last H3 when one is set and the root is deeper than 2. */
  function SlideHeader(c: Conf, s: State, level: int): string {
    "\n\n\n" + SlideBefore(s.commands) + "\n" + c.table.beforeH2 + s.lastH2
      + (if !PhpEmpty(s.lastH3) && level > 2 then " - " + s.lastH3 else "")
      + c.table.afterH2 + "\n\n\n"
  }

  /** A reveal root opens a slide: it appends the header and clears the flag and the notes. */
  function OpenSlide(c: Conf, s: State, level: int): State {
    s.(currentSlide := s.currentSlide + SlideHeader(c, s, level), currentSlideEmpty := true,
       currentSlideNotes := "")
  }

  /** The `<notes>` block of a slide, present only for non-empty notes. */
  function NotesBlock(notes: string): string {
    if PhpEmpty(notes) then "" else "\n\n\n<notes>\n" + notes + "\n</notes>\n"
  }

  /** The end of `_readRevealNode` at level 0: a non-empty slide is appended to the deck (after one
      map tag and one map bullet when `lastH2` is not yet in the map), and the slide buffers are
      reset in every case. */
  function Flush(s: State): State {
    var s1 :=
      if s.currentSlideEmpty then s
      else
        var m := if !Contains(s.presentationMap, s.lastH2) then
                   s.(revealOutput := s.revealOutput + MapTag,
                      presentationMap := s.presentationMap + "  * " + s.lastH2 + "\n")
                 else s;
        m.(revealOutput := m.revealOutput + s.currentSlide + NotesBlock(s.currentSlideNotes)
                           + SlideAfter + "\n");
    s1.(currentSlide := "", currentSlideNotes := "", currentSlideEmpty := true)
  }

  /** Flushing resets the slide; the deck gains the slide exactly when it is not empty; afterwards
      the map names `lastH2`, and it gains a bullet only when it did not name it already. */
  lemma FlushSlide(s: State)
    ensures var r := Flush(s);
            && r.currentSlide == "" && r.currentSlideNotes == "" && r.currentSlideEmpty
            && (s.currentSlideEmpty ==> r == s.(currentSlide := "", currentSlideNotes := "",
                                                currentSlideEmpty := true))
            && (!s.currentSlideEmpty ==> Contains(r.presentationMap, s.lastH2))
            && (!s.currentSlideEmpty && Contains(s.presentationMap, s.lastH2) ==>
                  r.presentationMap == s.presentationMap &&
                  r.revealOutput == s.revealOutput + s.currentSlide + NotesBlock(s.currentSlideNotes)
                                    + SlideAfter + "\n")
            && (!s.currentSlideEmpty && !Contains(s.presentationMap, s.lastH2) ==>
                  r.presentationMap == s.presentationMap + "  * " + s.lastH2 + "\n" &&
                  r.revealOutput == s.revealOutput + MapTag + s.currentSlide
                                    + NotesBlock(s.currentSlideNotes) + SlideAfter + "\n")
  {
    if !s.currentSlideEmpty {
      if Contains(s.presentationMap, s.lastH2) {
      } else {
        ContainsInfix(s.presentationMap + "  * ", s.lastH2, "\n");
      }
    }
  }

  /** Closing a non-root call leaves the slide open; at level 0 the slide is flushed. */
  function Close(s: State, level: int): State {
    if level == 0 then Flush(s) else s
  }

  /** `tag-red` markers: the title is wrapped in the red bold span once per matching marker. */
  function TagRedCount(markers: seq<Marker>): nat {
    if markers == [] then 0
    else TagRedCount(markers[..|markers| - 1])
         + (if markers[|markers| - 1].markerId == Some("tag-red") then 1 else 0)
  }

  /** `w` wrapped `k` times in the red bold span. */
  function WrapRed(w: string, k: nat): string {
    if k == 0 then w else "<wrap dugp_red>**" + WrapRed(w, k - 1) + "**</wrap>"
  }

  /** The decorated text of a slide bullet: highlighting, then red wrapping, then emphasis. */
  function BulletText(c: Conf, t: Topic): string {
    Emphasis(c.table, t.properties, WrapRed(Highlight(WithLf(c, t)), TagRedCount(t.markers)))
  }

  /** A slide bullet, indented by recursion depth. */
  function Bullet(c: Conf, t: Topic, level: int): string {
    LineIndent(level, 1) + BulletText(c, t) + "\n"
  }

  /** The notes a `notes` directive adds: one bullet per child that has a title. */
  function NotesOf(kids: seq<Topic>): string {
    if kids == [] then ""
    else NotesOf(kids[..|kids| - 1])
         + (if kids[|kids| - 1].title.Some? then "  * " + kids[|kids| - 1].Text() + "\n" else "")
  }

  /** One slide option: `no-footer` marks the opening line, `no-title` clears the first title
      line, `start_map_here` prepends the value of the unset `maptag` entry, that is nothing, and
      a line break. Every option, known or not, marks the slide as non-empty. */
  function ApplyOption(c: Conf, s: State, option: string): State {
    var slide :=
      if option == "no-footer" then Replace(s.currentSlide, "---- ", "----  no-footer ")
      else if option == "no-title" then ClearFirstTitle(s.currentSlide, c.table.beforeH2, c.table.afterH2)
      else if option == "start_map_here" then "\n" + s.currentSlide
      else s.currentSlide;
    s.(currentSlide := slide, currentSlideEmpty := false)
  }

  /** The options of the first `n` children, in order. */
  function ApplyOptions(c: Conf, s: State, kids: seq<Topic>): State {
    if kids == [] then s else ApplyOption(c, ApplyOptions(c, s, kids[..|kids| - 1]), kids[|kids| - 1].Text())
  }

  /** `_readRevealNodeCommand`: the first child's title is stored under the lower-cased name. */
  function ReadCommand(s: State, t: Topic): State {
    s.(commands := s.commands[Lower(t.Text()) := t.FirstChildTitle()])
  }

  /** A directive with attached children: `background`/`bg`, `notes`/`note` or `option`/`opt`. */
  predicate IsDirective(t: Topic) {
    t.children.Attached? &&
    t.Text() in {"background", "bg", "notes", "note", "option", "opt"}
  }

  /** What a directive node does: it edits the slide and marks it non-empty, and emits nothing. */
  function Directive(c: Conf, s: State, t: Topic): State
    requires IsDirective(t)
  {
    if t.Text() in {"background", "bg"} then
      s.(currentSlide := Replace(s.currentSlide, ":1px.png", t.FirstChildTitle()), currentSlideEmpty := false)
    else if t.Text() in {"notes", "note"} then
      s.(currentSlideNotes := s.currentSlideNotes + NotesOf(t.Kids()), currentSlideEmpty := false)
    else ApplyOptions(c, s, t.Kids())
  }

  /** `_readRevealNode`. */
  function RevealNodeSpec(c: Conf, s: State, t: Topic, level: int): State
    decreases t, 1
  {
    var v := Consume(s, t);
    if v.consumed then v.after
    else if IsRevealNode(t.Text()) then
      Flush(RevealKids(c, OpenSlide(c, s, level), t, |t.Kids()|, 0))
    else if IsRevealCommand(t.Text()) then ReadCommand(s, t)
    else if PhpEmpty(t.Text()) then
      Close(RevealKids(c, s.(currentSlide := s.currentSlide + "\n" + c.table.styleLf + "\n",
                             currentSlideEmpty := false), t, |t.Kids()|, level), level)
    else if IsDirective(t) then Directive(c, s, t)
    else
      Close(RevealKids(c, s.(currentSlide := s.currentSlide + Bullet(c, t, level),
                             currentSlideEmpty := false), t, |t.Kids()|, level), level)
  }

  /** The first `n` children of `t` read by the slide compiler at `level + 1`. */
  function RevealKids(c: Conf, s: State, t: Topic, n: nat, level: int): State
    requires n <= |t.Kids()|
    decreases t, 0, n
  {
    if n == 0 then s
    else RevealNodeSpec(c, RevealKids(c, s, t, n - 1, level), t.Kids()[n - 1], level + 1)
  }
}
