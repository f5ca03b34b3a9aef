/** Properties of one pass over the topic tree, proved about the functions of `Render`. */
module RenderFacts {
  import opened Wrappers
  import opened Strings
  import opened Topics
  import opened Styles
  import opened Patterns
  import opened Render

  // ---------------------------------------------------------------------------------------
  // The linear document is the pre-order outline of the tree

  /** A subtree that neither walker treats specially: no `{{page>`/`{{refs>` title, no manual
      reference and no reveal root anywhere in it. */
  predicate Plain(t: Topic)
    decreases t, 1
  {
    && !StartsWith(t.Text(), "{{page>") && !StartsWith(t.Text(), "{{refs>")
    && !IsManualReference(t.Text()) && !IsRevealNode(t.Text())
    && PlainKids(t, |t.Kids()|)
  }

  /** The first `n` children of `t` are plain. */
  predicate PlainKids(t: Topic, n: nat)
    requires n <= |t.Kids()|
    decreases t, 0, n
  {
    n == 0 || (PlainKids(t, n - 1) && Plain(t.Kids()[n - 1]))
  }

  /** The independent pre-order reference: a node's own text, then its children's outlines in
      `attached` order, one level deeper. */
  function Outline(c: Conf, t: Topic, level: int): string
    decreases t, 1
  {
    NodeText(c, t, level) + OutlineKids(c, t, |t.Kids()|, level)
  }

  /** The outlines of the first `n` children of `t`. */
  function OutlineKids(c: Conf, t: Topic, n: nat, level: int): string
    requires n <= |t.Kids()|
    decreases t, 0, n
  {
    if n == 0 then "" else OutlineKids(c, t, n - 1, level) + Outline(c, t.Kids()[n - 1], level + 1)
  }

  /** `readNode` on a plain subtree appends exactly its pre-order outline. */
  lemma {:induction false} ReadNodeOutline(c: Conf, s: State, t: Topic, level: int)
    requires Plain(t)
    ensures ReadNodeSpec(c, s, t, level).output == s.output + Outline(c, t, level)
    decreases t, 1
  {
    var e := Emit(c, s, t, level);
    EmitOutput(c, s, t, level);
    ReadKidsOutline(c, e, t, |t.Kids()|, level);
    PlainStep(c, s, t, level);
    AppendAssoc(s.output, NodeText(c, t, level), OutlineKids(c, t, |t.Kids()|, level));
  }

  /** `readNode` renders a plain node and then reads its children. */
  lemma PlainStep(c: Conf, s: State, t: Topic, level: int)
    requires Plain(t)
    ensures ReadNodeSpec(c, s, t, level) == ReadKids(c, Emit(c, s, t, level), t, |t.Kids()|, level)
  {
    assert !Consume(s, t).consumed;
  }

  lemma EmitOutput(c: Conf, s: State, t: Topic, level: int)
    ensures Emit(c, s, t, level).output == s.output + NodeText(c, t, level)
  {
  }

  lemma {:induction false} ReadKidsOutline(c: Conf, s: State, t: Topic, n: nat, level: int)
    requires n <= |t.Kids()| && PlainKids(t, n)
    ensures ReadKids(c, s, t, n, level).output == s.output + OutlineKids(c, t, n, level)
    decreases t, 0, n
  {
    if n > 0 {
      var s1 := ReadKids(c, s, t, n - 1, level);
      ReadKidsOutline(c, s, t, n - 1, level);
      ReadNodeOutline(c, s1, t.Kids()[n - 1], level + 1);
    }
  }

  /** A node that a classifier consumes is not descended into: its children are irrelevant. */
  lemma ConsumedSkipsChildren(c: Conf, s: State, t: Topic, level: int, other: Children)
    requires Consume(s, t).consumed
    ensures ReadNodeSpec(c, s, t, level) == ReadNodeSpec(c, s, t.(children := other), level)
    ensures RevealNodeSpec(c, s, t, level) == RevealNodeSpec(c, s, t.(children := other), level)
  {
  }

  // ---------------------------------------------------------------------------------------
  // The buffers only grow

  /** `r` extends `s`: both documents, the map and both registries were only appended to. */
  predicate Grows(s: State, r: State) {
    && s.output <= r.output && s.revealOutput <= r.revealOutput
    && s.presentationMap <= r.presentationMap
    && s.extraRefs <= r.extraRefs && s.manualRefs <= r.manualRefs
  }

  lemma PrefixTrans<T>(a: seq<T>, b: seq<T>, c: seq<T>)
    requires a <= b && b <= c
    ensures a <= c
  {
    assert c[..|b|][..|a|] == c[..|a|];
  }

  lemma GrowsTrans(s: State, r: State, u: State)
    requires Grows(s, r) && Grows(r, u)
    ensures Grows(s, u)
  {
    PrefixTrans(s.output, r.output, u.output);
    PrefixTrans(s.revealOutput, r.revealOutput, u.revealOutput);
    PrefixTrans(s.presentationMap, r.presentationMap, u.presentationMap);
    PrefixTrans(s.extraRefs, r.extraRefs, u.extraRefs);
    PrefixTrans(s.manualRefs, r.manualRefs, u.manualRefs);
  }

  lemma AppendGrows<T>(a: seq<T>, b: seq<T>)
    ensures a <= a + b
  {
    assert (a + b)[..|a|] == a;
  }

  lemma ConsumeGrows(s: State, t: Topic)
    ensures Grows(s, Consume(s, t).after)
  {
    AppendGrows(s.output, t.Text() + "\n");
    assert s.output + t.Text() + "\n" == s.output + (t.Text() + "\n");
    AppendGrows(s.revealOutput, "\n" + t.Text() + "\n");
    assert s.revealOutput + "\n" + t.Text() + "\n" == s.revealOutput + ("\n" + t.Text() + "\n");
    AppendGrows(s.extraRefs, [t.Text()]);
    AppendGrows(s.manualRefs, [t.Text()]);
  }

  lemma FlushGrows(s: State)
    ensures Grows(s, Flush(s))
  {
    var tail := s.currentSlide + NotesBlock(s.currentSlideNotes) + SlideAfter + "\n";
    if !s.currentSlideEmpty {
      if Contains(s.presentationMap, s.lastH2) {
        AppendGrows(s.revealOutput, tail);
        assert s.revealOutput + s.currentSlide + NotesBlock(s.currentSlideNotes) + SlideAfter + "\n"
            == s.revealOutput + tail;
      } else {
        AppendGrows(s.revealOutput, MapTag + tail);
        assert s.revealOutput + MapTag + s.currentSlide + NotesBlock(s.currentSlideNotes) + SlideAfter + "\n"
            == s.revealOutput + (MapTag + tail);
        AppendGrows(s.presentationMap, "  * " + s.lastH2 + "\n");
        assert s.presentationMap + "  * " + s.lastH2 + "\n" == s.presentationMap + ("  * " + s.lastH2 + "\n");
      }
      FlushSlide(s);
    }
  }

  lemma OptionsKeepBuffers(c: Conf, s: State, kids: seq<Topic>)
    ensures var r := ApplyOptions(c, s, kids);
            r.(currentSlide := s.currentSlide, currentSlideEmpty := s.currentSlideEmpty) == s
  {
    if kids != [] {
      OptionsKeepBuffers(c, s, kids[..|kids| - 1]);
    }
  }

  /** Neither walker ever rewrites or drops what the buffers already hold: every call only
      appends to the documents, the map and the registries. */
  lemma {:induction false} ReadNodeGrows(c: Conf, s: State, t: Topic, level: int)
    ensures Grows(s, ReadNodeSpec(c, s, t, level))
    decreases t, 3
  {
    var v := Consume(s, t);
    ConsumeGrows(s, t);
    if v.consumed {
    } else if IsRevealNode(t.Text()) {
      RevealNodeGrows(c, s, t, level);
    } else {
      var e := Emit(c, s, t, level);
      AppendGrows(s.output, NodeText(c, t, level));
      ReadKidsGrows(c, e, t, |t.Kids()|, level);
      GrowsTrans(s, e, ReadKids(c, e, t, |t.Kids()|, level));
    }
  }

  lemma {:induction false} ReadKidsGrows(c: Conf, s: State, t: Topic, n: nat, level: int)
    requires n <= |t.Kids()|
    ensures Grows(s, ReadKids(c, s, t, n, level))
    decreases t, 0, n
  {
    if n > 0 {
      var s1 := ReadKids(c, s, t, n - 1, level);
      ReadKidsGrows(c, s, t, n - 1, level);
      ReadNodeGrows(c, s1, t.Kids()[n - 1], level + 1);
      GrowsTrans(s, s1, ReadNodeSpec(c, s1, t.Kids()[n - 1], level + 1));
    }
  }

  lemma {:induction false} CloseGrows(s: State, level: int)
    ensures Grows(s, Close(s, level))
  {
    if level == 0 {
      FlushGrows(s);
    }
  }

  lemma {:induction false} RevealNodeGrows(c: Conf, s: State, t: Topic, level: int)
    ensures Grows(s, RevealNodeSpec(c, s, t, level))
    decreases t, 2
  {
    ConsumeGrows(s, t);
    if Consume(s, t).consumed || IsRevealCommand(t.Text()) {
    } else if IsRevealNode(t.Text()) {
      RevealRootGrows(c, s, t, level);
    } else {
      RevealContentGrows(c, s, t, level);
    }
  }

  lemma {:induction false} RevealRootGrows(c: Conf, s: State, t: Topic, level: int)
    requires !Consume(s, t).consumed && IsRevealNode(t.Text())
    ensures Grows(s, RevealNodeSpec(c, s, t, level))
    decreases t, 1
  {
    var o := OpenSlide(c, s, level);
    var k := RevealKids(c, o, t, |t.Kids()|, 0);
    RevealKidsGrows(c, o, t, |t.Kids()|, 0);
    FlushGrows(k);
    GrowsTrans(o, k, Flush(k));
  }

  lemma {:induction false} RevealContentGrows(c: Conf, s: State, t: Topic, level: int)
    requires !Consume(s, t).consumed && !IsRevealNode(t.Text()) && !IsRevealCommand(t.Text())
    ensures Grows(s, RevealNodeSpec(c, s, t, level))
    decreases t, 1
  {
    if PhpEmpty(t.Text()) {
      CloseKidsGrows(c, s.(currentSlide := s.currentSlide + "\n" + c.table.styleLf + "\n", currentSlideEmpty := false), t, level);
    } else if IsDirective(t) {
      if t.Text() in {"option", "opt"} {
        OptionsKeepBuffers(c, s, t.Kids());
      }
    } else {
      CloseKidsGrows(c, s.(currentSlide := s.currentSlide + Bullet(c, t, level), currentSlideEmpty := false), t, level);
    }
  }

  /** Reading the children of `t` and closing the slide only appends. */
  lemma {:induction false} CloseKidsGrows(c: Conf, o: State, t: Topic, level: int)
    ensures Grows(o, Close(RevealKids(c, o, t, |t.Kids()|, level), level))
    decreases t, 0, |t.Kids()| + 1
  {
    var k := RevealKids(c, o, t, |t.Kids()|, level);
    RevealKidsGrows(c, o, t, |t.Kids()|, level);
    CloseGrows(k, level);
    GrowsTrans(o, k, Close(k, level));
  }

  lemma {:induction false} RevealKidsGrows(c: Conf, s: State, t: Topic, n: nat, level: int)
    requires n <= |t.Kids()|
    ensures Grows(s, RevealKids(c, s, t, n, level))
    decreases t, 0, n
  {
    if n > 0 {
      var s1 := RevealKids(c, s, t, n - 1, level);
      RevealKidsGrows(c, s, t, n - 1, level);
      RevealNodeGrows(c, s1, t.Kids()[n - 1], level + 1);
      GrowsTrans(s, s1, RevealNodeSpec(c, s1, t.Kids()[n - 1], level + 1));
    }
  }

  // ---------------------------------------------------------------------------------------
  // The slide compiler leaves the linear document alone

  /** No title in the subtree starts with `{{page>`. */
  predicate NoPage(t: Topic)
    decreases t, 1
  {
    !StartsWith(t.Text(), "{{page>") && NoPageKids(t, |t.Kids()|)
  }

  predicate NoPageKids(t: Topic, n: nat)
    requires n <= |t.Kids()|
    decreases t, 0, n
  {
    n == 0 || (NoPageKids(t, n - 1) && NoPage(t.Kids()[n - 1]))
  }

  /** The linear part of the buffers: the document and its last headings. */
  predicate SameLinear(s: State, r: State) {
    r.output == s.output && r.lastH1 == s.lastH1 && r.lastH2 == s.lastH2 && r.lastH3 == s.lastH3
  }

  lemma OptionsKeepLinear(c: Conf, s: State, kids: seq<Topic>)
    ensures SameLinear(s, ApplyOptions(c, s, kids))
  {
    OptionsKeepBuffers(c, s, kids);
  }

  /** Inside a reveal subtree only `{{page>` nodes touch the linear document: everything else
      goes to the slides and leaves the document and its last headings as they were. */
  lemma {:induction false} RevealKeepsLinear(c: Conf, s: State, t: Topic, level: int)
    requires NoPage(t)
    ensures SameLinear(s, RevealNodeSpec(c, s, t, level))
    decreases t, 2
  {
    if Consume(s, t).consumed || IsRevealCommand(t.Text()) {
    } else if IsRevealNode(t.Text()) {
      RevealRootKeepsLinear(c, s, t, level);
    } else {
      RevealContentKeepsLinear(c, s, t, level);
    }
  }

  lemma {:induction false} RevealRootKeepsLinear(c: Conf, s: State, t: Topic, level: int)
    requires NoPage(t) && !Consume(s, t).consumed && IsRevealNode(t.Text())
    ensures SameLinear(s, RevealNodeSpec(c, s, t, level))
    decreases t, 1
  {
    var o := OpenSlide(c, s, level);
    RevealKidsKeepLinear(c, o, t, |t.Kids()|, 0);
  }

  lemma {:induction false} RevealContentKeepsLinear(c: Conf, s: State, t: Topic, level: int)
    requires NoPage(t) && !Consume(s, t).consumed && !IsRevealNode(t.Text()) && !IsRevealCommand(t.Text())
    ensures SameLinear(s, RevealNodeSpec(c, s, t, level))
    decreases t, 1
  {
    if PhpEmpty(t.Text()) {
      var o := s.(currentSlide := s.currentSlide + "\n" + c.table.styleLf + "\n", currentSlideEmpty := false);
      RevealKidsKeepLinear(c, o, t, |t.Kids()|, level);
    } else if IsDirective(t) {
      if t.Text() in {"option", "opt"} {
        OptionsKeepLinear(c, s, t.Kids());
      }
    } else {
      var o := s.(currentSlide := s.currentSlide + Bullet(c, t, level), currentSlideEmpty := false);
      RevealKidsKeepLinear(c, o, t, |t.Kids()|, level);
    }
  }

  lemma {:induction false} RevealKidsKeepLinear(c: Conf, s: State, t: Topic, n: nat, level: int)
    requires n <= |t.Kids()| && NoPageKids(t, n)
    ensures SameLinear(s, RevealKids(c, s, t, n, level))
    decreases t, 0, n
  {
    if n > 0 {
      var s1 := RevealKids(c, s, t, n - 1, level);
      RevealKidsKeepLinear(c, s, t, n - 1, level);
      RevealKeepsLinear(c, s1, t.Kids()[n - 1], level + 1);
    }
  }

  // ---------------------------------------------------------------------------------------
  // Reveal roots, commands and directives

  /** A reveal root that is not consumed opens a slide and, when its call unwinds, leaves no slide
      open whatever its level, and the deck holds the slide when anything was put into it. */
  lemma RevealRootCloses(c: Conf, s: State, t: Topic, level: int)
    requires !Consume(s, t).consumed && IsRevealNode(t.Text())
    ensures var r := ReadNodeSpec(c, s, t, level);
            var k := RevealKids(c, OpenSlide(c, s, level), t, |t.Kids()|, 0);
            && r == Flush(k)
            && r.currentSlide == "" && r.currentSlideNotes == "" && r.currentSlideEmpty
            && (!k.currentSlideEmpty ==> Contains(r.presentationMap, k.lastH2))
  {
    FlushSlide(RevealKids(c, OpenSlide(c, s, level), t, |t.Kids()|, 0));
  }

  /** Titles without '{' are never extra pages. */
  lemma NoBraceNotPage(w: string)
    requires forall k :: 0 <= k < |w| ==> w[k] != '{'
    ensures !StartsWith(w, "{{page>") && !StartsWith(w, "{{refs>")
  {
    if |w| >= 7 {
      assert w[..7][0] == w[0];
    }
  }

  /** Titles without '[' are never manual references. */
  lemma NoBracketNotManual(s: string)
    requires forall k :: 0 <= k < |s| ==> s[k] != '['
    ensures !IsManualReference(s)
  {
    forall i | 0 <= i <= |s| && LineStart(s, i) ensures !ManualRefStart(s[i..]) {
      if i < |s| {
        assert s[i..][0] == s[i];
      }
    }
  }

  /** A title without upper-case ASCII letters is its own lower-case form. */
  lemma LowerKeeps(s: string)
    requires forall k :: 0 <= k < |s| ==> !('A' <= s[k] <= 'Z')
    ensures Lower(s) == s
  {
  }

  /** A plain ASCII word is classified by its characters alone: it is no `{{`-page, no manual
      reference, and a reveal root or command only when it is one of those names. */
  lemma WordNotConsumed(s: State, t: Topic)
    requires |t.Text()| > 0
    requires forall k :: 0 <= k < |t.Text()| ==> 'a' <= t.Text()[k] <= 'z' || t.Text()[k] == '-' || t.Text()[k] == '_'
    ensures !Consume(s, t).consumed && !PhpEmpty(t.Text())
    ensures Lower(t.Text()) == t.Text()
  {
    assert t.Text()[0] != '0';
    NoBracketNotManual(t.Text());
    NoBraceNotPage(t.Text());
    LowerKeeps(t.Text());
  }

  /** A command node stores its first child's title under the lower-cased name, visits none of its
      children and changes nothing else. */
  lemma CommandStores(c: Conf, s: State, t: Topic, level: int)
    requires forall k :: 0 <= k < |t.Text()| ==> t.Text()[k] != '[' && t.Text()[k] != '{'
    requires IsRevealCommand(t.Text())
    ensures var r := RevealNodeSpec(c, s, t, level);
            && Lower(t.Text()) in r.commands && r.commands[Lower(t.Text())] == t.FirstChildTitle()
            && (forall name :: name in s.commands && name != Lower(t.Text()) ==>
                  name in r.commands && r.commands[name] == s.commands[name])
            && r.(commands := s.commands) == s
  {
    NoBracketNotManual(t.Text());
    NoBraceNotPage(t.Text());
    assert !IsRevealNode(t.Text());
  }

  /** The directive names are neither consumed nor reveal roots nor commands, and not empty. */
  lemma DirectiveWords(s: State, t: Topic)
    requires t.Text() in {"background", "bg", "notes", "note", "option", "opt"}
    ensures !Consume(s, t).consumed && !IsRevealNode(t.Text()) && !IsRevealCommand(t.Text())
    ensures !PhpEmpty(t.Text())
  {
    WordNotConsumed(s, t);
    assert t.Text() !in Commands && t.Text() !in {"rj", "rjs", "reveal", "revealjs"};
  }

  /** A directive with attached children emits no bullet and does not descend: only the slide, its
      notes and its flag change, and the titles of its children decide how. */
  lemma DirectiveEffect(c: Conf, s: State, t: Topic, level: int)
    requires IsDirective(t)
    ensures var r := RevealNodeSpec(c, s, t, level);
            && r == Directive(c, s, t)
            && r.(currentSlide := s.currentSlide, currentSlideNotes := s.currentSlideNotes,
                  currentSlideEmpty := s.currentSlideEmpty) == s
            && (t.Text() in {"background", "bg"} ==>
                  r.currentSlide == Replace(s.currentSlide, ":1px.png", t.FirstChildTitle()))
            && (t.Text() in {"notes", "note"} ==>
                  r.currentSlideNotes == s.currentSlideNotes + NotesOf(t.Kids()))
            && (t.Text() !in {"option", "opt"} || |t.Kids()| > 0 ==> !r.currentSlideEmpty)
  {
    DirectiveWords(s, t);
    if t.Text() in {"option", "opt"} {
      OptionsKeepBuffers(c, s, t.Kids());
      if |t.Kids()| > 0 {
        var ks := t.Kids();
        assert ApplyOptions(c, s, ks) == ApplyOption(c, ApplyOptions(c, s, ks[..|ks| - 1]), ks[|ks| - 1].Text());
      }
    }
  }

  /** The children of `ks` with their own children dropped. */
  function Shallow(ks: seq<Topic>): (r: seq<Topic>)
    ensures |r| == |ks|
    ensures forall i :: 0 <= i < |ks| ==> r[i] == ks[i].(children := Absent)
  {
    if ks == [] then [] else Shallow(ks[..|ks| - 1]) + [ks[|ks| - 1].(children := Absent)]
  }

  lemma {:induction false} NotesShallow(ks: seq<Topic>)
    ensures NotesOf(Shallow(ks)) == NotesOf(ks)
  {
    if ks != [] {
      NotesShallow(ks[..|ks| - 1]);
      assert Shallow(ks)[..|ks| - 1] == Shallow(ks[..|ks| - 1]);
    }
  }

  lemma {:induction false} OptionsShallow(c: Conf, s: State, ks: seq<Topic>)
    ensures ApplyOptions(c, s, Shallow(ks)) == ApplyOptions(c, s, ks)
  {
    if ks != [] {
      OptionsShallow(c, s, ks[..|ks| - 1]);
      assert Shallow(ks)[..|ks| - 1] == Shallow(ks[..|ks| - 1]);
    }
  }

  /** A directive does not recurse: the grandchildren of a directive node never matter. */
  lemma DirectiveIgnoresGrandchildren(c: Conf, s: State, t: Topic, level: int)
    requires IsDirective(t)
    ensures RevealNodeSpec(c, s, t, level)
            == RevealNodeSpec(c, s, t.(children := Attached(Shallow(t.Kids()))), level)
  {
    var t' := t.(children := Attached(Shallow(t.Kids())));
    assert t'.Text() == t.Text() && t'.Kids() == Shallow(t.Kids());
    DirectiveEffect(c, s, t, level);
    DirectiveEffect(c, s, t', level);
    NotesShallow(t.Kids());
    OptionsShallow(c, s, t.Kids());
  }

  // ---------------------------------------------------------------------------------------
  // The header of a new slide and the `no-title` option

  /** A text without line breaks. */
  predicate OneLine(w: string) {
    forall k :: 0 <= k < |w| ==> w[k] != '\n'
  }

  lemma OneLineConcat(x: string, y: string)
    requires OneLine(x) && OneLine(y)
    ensures OneLine(x + y)
  {
    assert forall k :: |x| <= k < |x + y| ==> (x + y)[k] == y[k - |x|];
  }

  /** In either dialect, when the headings and the stored slide values are single lines, the
      first title line of a freshly opened slide is its header's `beforeH2 + lastH2 [+ " - " +
      lastH3] + afterH2`: `no-title` clears exactly that line to its delimiters and keeps the
      opening line and everything added to the slide after the header. */
  lemma NoTitleClearsHeader(c: Conf, s: State, level: int, rest: string)
    requires c.table == Dokuwiki || c.table == Markdown
    requires OneLine(s.lastH2) && OneLine(s.lastH3)
    requires OneLine(Cmd(s.commands, "style")) && OneLine(Cmd(s.commands, "bg-anim"))
             && OneLine(Cmd(s.commands, "slide-transition"))
    ensures var o := OpenSlide(c, s.(currentSlide := ""), level);
            var b := c.table.beforeH2;
            var a := c.table.afterH2;
            var opt := if !PhpEmpty(s.lastH3) && level > 2 then " - " + s.lastH3 else "";
            && o.currentSlide
               == "\n\n\n" + SlideBefore(s.commands) + "\n" + (b + (s.lastH2 + opt) + a) + "\n\n\n"
            && ApplyOption(c, o.(currentSlide := o.currentSlide + rest), "no-title").currentSlide
               == "\n\n\n" + SlideBefore(s.commands) + "\n" + (b + " " + a) + "\n\n\n" + rest
  {
    var b := c.table.beforeH2;
    var a := c.table.afterH2;
    assert |b| > 0 && (b[0] == '=' || b[0] == '#');
    var o := OpenSlide(c, s.(currentSlide := ""), level);
    assert SlideHeader(c, s.(currentSlide := ""), level) == SlideHeader(c, s, level);
    var opt := if !PhpEmpty(s.lastH3) && level > 2 then " - " + s.lastH3 else "";
    var line := "---- " + Cmd(s.commands, "style") + " :1px.png " + Cmd(s.commands, "bg-anim") + " "
                + Cmd(s.commands, "slide-transition") + " ---->";
    assert SlideBefore(s.commands) == line + "\n";
    assert OneLine(opt) by {
      if opt != "" {
        OneLineConcat(" - ", s.lastH3);
      }
    }
    OneLineConcat(s.lastH2, opt);
    HeaderLineIsNoTitle(line, s.commands, b, a);
    HeaderShape(line, b, s.lastH2, opt, a);
    assert o.currentSlide == "\n\n\n" + (line + "\n") + "\n" + b + s.lastH2 + opt + a + "\n\n\n";
    ClearAfterOpening(line, b, s.lastH2 + opt, a, rest);
  }

  /** The other options: `no-footer` marks the one opening line of a slide and changes nothing
      else, `start_map_here` puts one line break in front of the slide, and any option that is
      none of the three keeps the slide text. Every option marks the slide as non-empty and leaves
      all other buffers alone. */
  lemma OtherOptionEffects(c: Conf, s: State, option: string, pre: string, post: string)
    requires s.currentSlide == pre + "---- " + post
    requires forall k :: 0 <= k < |pre| ==> !StartsWith(s.currentSlide[k..], "---- ")
    requires !Contains(post, "---- ")
    ensures var r := ApplyOption(c, s, option);
            && !r.currentSlideEmpty
            && r.(currentSlide := s.currentSlide, currentSlideEmpty := s.currentSlideEmpty) == s
            && (option == "no-footer" ==> r.currentSlide == pre + "----  no-footer " + post)
            && (option == "start_map_here" ==> r.currentSlide == "\n" + s.currentSlide)
            && (option != "no-footer" && option != "no-title" && option != "start_map_here" ==>
                  r.currentSlide == s.currentSlide)
  {
    if option == "no-footer" {
      ReplaceOnce(pre, post, "---- ", "----  no-footer ");
    }
  }

  /** The header as its parts: the title line is the heading text between the delimiters. */
  lemma HeaderShape(line: string, b: string, h2: string, opt: string, a: string)
    ensures "\n\n\n" + (line + "\n") + "\n" + b + h2 + opt + a + "\n\n\n"
            == "\n\n\n" + (line + "\n") + "\n" + (b + (h2 + opt) + a) + "\n\n\n"
  {
    var q := "\n\n\n" + (line + "\n") + "\n";
    AppendAssoc(q + b, h2, opt);
    AppendAssoc(q, b, h2 + opt);
    AppendAssoc(q, b + (h2 + opt), a);
    AppendAssoc(q + b, h2 + opt, a);
  }

  /** `no-title` on a slide that opens with blank lines, an opening line that is no title line and
      a blank line: the next line, a title line, is cleared and the rest is kept. */
  lemma ClearAfterOpening(line: string, b: string, title: string, a: string, rest: string)
    requires OneLine(line) && !TitleLine(line, b, a) && !TitleLine("", b, a)
    requires OneLine(b + title + a)
    ensures ClearFirstTitle("\n\n\n" + (line + "\n") + "\n" + (b + title + a) + "\n\n\n" + rest, b, a)
            == "\n\n\n" + (line + "\n") + "\n" + (b + " " + a) + "\n\n\n" + rest
  {
    var t := b + title + a;
    var c1 := b + " " + a;
    var l := line + "\n";
    var tail := "\n\n\n" + rest;
    var r0 := "\n\n" + rest;
    Reassoc6("\n\n\n", l, "\n", t, "\n\n\n", rest);
    Reassoc6("\n\n\n", l, "\n", c1, "\n\n\n", rest);
    assert tail == "\n" + r0;
    AppendAssoc(t, "\n", r0);
    AppendAssoc(c1, "\n", r0);
    ClearFirstTitleHits(title, r0, b, a);
    ClearBlank(t + tail, b, a);
    var w := "\n" + (t + tail);
    ClearFirstTitleSkips(line, w, b, a);
    var x := l + w;
    ThreeBlanks(x);
    ClearBlank(x, b, a);
    ClearBlank("\n" + x, b, a);
    ClearBlank("\n" + ("\n" + x), b, a);
    var y := l + ("\n" + (c1 + tail));
    ThreeBlanks(y);
  }

  lemma ThreeBlanks(x: string)
    ensures "\n\n\n" + x == "\n" + ("\n" + ("\n" + x))
  {
    assert "\n\n\n" == "\n" + ("\n" + "\n");
    AppendAssoc("\n", "\n" + "\n", x);
    AppendAssoc("\n", "\n", x);
  }

  /** A blank line is never cleared. */
  lemma ClearBlank(v: string, b: string, a: string)
    requires |v| > 0 && !TitleLine("", b, a)
    ensures ClearFirstTitle("\n" + v, b, a) == "\n" + ClearFirstTitle(v, b, a)
  {
    ClearFirstTitleSkips("", v, b, a);
    assert "" + "\n" + v == "\n" + v;
    assert "" + "\n" + ClearFirstTitle(v, b, a) == "\n" + ClearFirstTitle(v, b, a);
  }

  lemma Reassoc6(p1: string, p2: string, p3: string, p4: string, p5: string, p6: string)
    ensures p1 + p2 + p3 + p4 + p5 + p6 == p1 + (p2 + (p3 + (p4 + (p5 + p6))))
  {
    AppendAssoc(p1 + p2 + p3 + p4, p5, p6);
    AppendAssoc(p1 + p2 + p3, p4, p5 + p6);
    AppendAssoc(p1 + p2, p3, p4 + (p5 + p6));
    AppendAssoc(p1, p2, p3 + (p4 + (p5 + p6)));
  }

  /** The opening line of a slide is a single line and never a title line of either dialect. */
  lemma HeaderLineIsNoTitle(line: string, commands: map<string, string>, b: string, a: string)
    requires OneLine(Cmd(commands, "style")) && OneLine(Cmd(commands, "bg-anim"))
             && OneLine(Cmd(commands, "slide-transition"))
    requires line == "---- " + Cmd(commands, "style") + " :1px.png " + Cmd(commands, "bg-anim") + " "
                     + Cmd(commands, "slide-transition") + " ---->"
    requires |b| > 0 && b[0] != '-'
    ensures OneLine(line) && !TitleLine(line, b, a) && !TitleLine("", b, a)
  {
    OneLineConcat("---- ", Cmd(commands, "style"));
    OneLineConcat("---- " + Cmd(commands, "style"), " :1px.png ");
    OneLineConcat("---- " + Cmd(commands, "style") + " :1px.png ", Cmd(commands, "bg-anim"));
    OneLineConcat("---- " + Cmd(commands, "style") + " :1px.png " + Cmd(commands, "bg-anim"), " ");
    OneLineConcat("---- " + Cmd(commands, "style") + " :1px.png " + Cmd(commands, "bg-anim") + " ",
                  Cmd(commands, "slide-transition"));
    OneLineConcat("---- " + Cmd(commands, "style") + " :1px.png " + Cmd(commands, "bg-anim") + " "
                  + Cmd(commands, "slide-transition"), " ---->");
    assert line[0] == '-';
  }
}
