/**
 * What the session-document pass promises over several lines: the front
 * matter, fenced code blocks, headings and the heading tree, and the
 * servers the post-pass names.
 *
 * Each lemma about a run of lines composes the one-line lemmas of
 * `SessionParser`; facts about sequences alone are kept in lemmas of
 * their own.
 */
module ParserProperties {
  import opened Text
  import opened SessionParser

  // ---------------------------------------------------------------------
  // Runs of lines

  lemma RunSnoc(s: ScanState, pre: seq<string>, line: string)
    requires Valid(s)
    ensures Run(s, pre + [line]) == Step(Run(s, pre), line)
  {
    SnocPrefix(pre, line);
  }

  lemma RunOne(s: ScanState, line: string)
    requires Valid(s)
    ensures Run(s, [line]) == Step(s, line)
  {
    RunSnoc(s, [], line);
    assert [] + [line] == [line];
  }

  /** Scanning two stretches of lines in turn is scanning them together. */
  lemma {:induction false} RunAppend(s: ScanState, a: seq<string>, b: seq<string>)
    requires Valid(s)
    ensures Run(s, a + b) == Run(Run(s, a), b)
    decreases |b|
  {
    if b == [] {
      assert a + b == a;
    } else {
      var pre, x := b[..|b| - 1], b[|b| - 1];
      SnocParts(b);
      AppendSnoc(a, pre, x);
      RunAppend(s, a, pre);
      RunSnoc(s, a + pre, x);
      RunSnoc(Run(s, a), pre, x);
    }
  }

  // ---------------------------------------------------------------------
  // Which guard a line meets

  /** A fence line, whatever follows the backticks, is never a `---` delimiter. */
  lemma FenceIsNotToggle(line: string)
    requires IsFence(line)
    ensures !IsToggle(line)
  {
    assert line[0] == line[..3][0] == '`';
    TrimKeepsFirst(line);
    assert "---"[0] == '-';
  }

  /** A heading line is neither a `---` delimiter nor a fence. */
  lemma HeadingIsNotToggleOrFence(line: string)
    requires StartsWith(line, "# ") || StartsWith(line, "## ")
    ensures !IsToggle(line) && !IsFence(line)
  {
    assert line[0] == '#';
    TrimKeepsFirst(line);
    assert "---"[0] == '-';
    assert "```"[0] == '`';
  }

  lemma TitleLineIsNotDateLine(line: string)
    requires StartsWith(line, "title:")
    ensures !StartsWith(line, "date:")
  {
    assert line[0] == line[..6][0] == 't';
    assert "date:"[0] == 'd';
  }

  // ---------------------------------------------------------------------
  // Front matter

  predicate NotToggle(line: string) {
    !IsToggle(line)
  }

  /** `title` after these front-matter lines: the value of the last
      `title:` line, or `t` when there is none. */
  function HeaderTitle(block: seq<string>, t: string): string
    decreases |block|
  {
    if block == [] then t
    else
      var line := block[|block| - 1];
      if StartsWith(line, "title:") then TitleValue(line) else HeaderTitle(block[..|block| - 1], t)
  }

  /** `date` after these front-matter lines: the value of the last
      `date:` line, or `d` when there is none. */
  function HeaderDate(block: seq<string>, d: string): string
    decreases |block|
  {
    if block == [] then d
    else
      var line := block[|block| - 1];
      if StartsWith(line, "date:") then DateValue(line) else HeaderDate(block[..|block| - 1], d)
  }

  /** Lines between two `---` delimiters change `title` and `date` and
      nothing else: no section, topic or code block comes of them. */
  lemma {:induction false} HeaderBlock(s: ScanState, block: seq<string>)
    requires Valid(s) && s.inHeader && Every(block, NotToggle)
    ensures Run(s, block) == s.(title := HeaderTitle(block, s.title), date := HeaderDate(block, s.date))
    decreases |block|
  {
    if block != [] {
      var pre, line := block[..|block| - 1], block[|block| - 1];
      EveryInit(block, NotToggle);
      HeaderBlock(s, pre);
      HeaderLineSetsOnlyTitleAndDate(Run(s, pre), line);
      if StartsWith(line, "title:") {
        TitleLineIsNotDateLine(line);
      }
    }
  }

  predicate IsTitleLine(line: string) {
    StartsWith(line, "title:")
  }

  predicate IsDateLine(line: string) {
    StartsWith(line, "date:")
  }

  /** `k` is the last index whose element satisfies `p`. */
  predicate LastWith(block: seq<string>, p: string -> bool, k: int) {
    0 <= k < |block| && p(block[k]) && forall m :: k < m < |block| ==> !p(block[m])
  }

  lemma LastWithInit(block: seq<string>, p: string -> bool, k: int)
    requires LastWith(block, p, k) && k < |block| - 1
    ensures LastWith(block[..|block| - 1], p, k) && !p(block[|block| - 1])
  {
    var pre := block[..|block| - 1];
    assert pre[k] == block[k];
    assert forall m :: k < m < |pre| ==> pre[m] == block[m];
  }

  /** The last `title:` line of the front matter wins; without one the
      title keeps its value. */
  lemma {:induction false} HeaderTitleIsLast(block: seq<string>, t: string)
    ensures !(exists k :: 0 <= k < |block| && IsTitleLine(block[k])) ==> HeaderTitle(block, t) == t
    ensures forall k :: LastWith(block, IsTitleLine, k) ==> HeaderTitle(block, t) == TitleValue(block[k])
    decreases |block|
  {
    if block != [] {
      var n := |block| - 1;
      var pre := block[..n];
      HeaderTitleIsLast(pre, t);
      if !(exists k :: 0 <= k < |block| && IsTitleLine(block[k])) {
        assert forall k :: 0 <= k < n ==> pre[k] == block[k];
      }
      forall k | LastWith(block, IsTitleLine, k) ensures HeaderTitle(block, t) == TitleValue(block[k]) {
        if k < n {
          LastWithInit(block, IsTitleLine, k);
        }
      }
    }
  }

  /** The last `date:` line of the front matter wins; without one the
      date keeps its value. */
  lemma {:induction false} HeaderDateIsLast(block: seq<string>, d: string)
    ensures !(exists k :: 0 <= k < |block| && IsDateLine(block[k])) ==> HeaderDate(block, d) == d
    ensures forall k :: LastWith(block, IsDateLine, k) ==> HeaderDate(block, d) == DateValue(block[k])
    decreases |block|
  {
    if block != [] {
      var n := |block| - 1;
      var pre := block[..n];
      HeaderDateIsLast(pre, d);
      if !(exists k :: 0 <= k < |block| && IsDateLine(block[k])) {
        assert forall k :: 0 <= k < n ==> pre[k] == block[k];
      }
      forall k | LastWith(block, IsDateLine, k) ensures HeaderDate(block, d) == DateValue(block[k]) {
        if k < n {
          LastWithInit(block, IsDateLine, k);
        }
      }
    }
  }

  /** The title value is the text after `title:`, trimmed, with every
      double quote removed. */
  lemma TitleHasNoQuotes(line: string)
    requires StartsWith(line, "title:")
    ensures '"' !in TitleValue(line)
    ensures forall c :: c in TitleValue(line) <==> c in Trim(line[6..]) && c != '"'
    ensures '"' !in Trim(line[6..]) ==> TitleValue(line) == Trim(line[6..])
  {
    if '"' !in Trim(line[6..]) {
      RemoveCharAbsent(Trim(line[6..]), '"');
    }
  }

  /** A quote anywhere in the value is dropped and the text on either side
      is kept, in order, with its own quotes dropped. */
  lemma TitleDropsEachQuote(line: string, before: string, after: string)
    requires StartsWith(line, "title:") && Trim(line[6..]) == before + "\"" + after
    ensures TitleValue(line) == RemoveChar(before, '"') + RemoveChar(after, '"')
  {
    RemoveCharDropsOne(before, after, '"');
    assert before + "\"" + after == before + ['"'] + after;
  }

  /** A quoted value without inner quotes loses exactly its two quotes. */
  lemma QuotedTitle(line: string, t: string)
    requires StartsWith(line, "title:") && Trim(line[6..]) == "\"" + t + "\"" && '"' !in t
    ensures TitleValue(line) == t
  {
    QuotesAroundDropped(t);
  }

  lemma QuotesAroundDropped(t: string)
    requires '"' !in t
    ensures RemoveChar("\"" + t + "\"", '"') == t
  {
    var q := '"';
    var e: string := [];
    var tq := t + [q];
    assert "\"" + t + "\"" == e + [q] + tq;
    RemoveCharDropsOne(e, tq, q);
    assert tq == t + [q] + e;
    RemoveCharDropsOne(t, e, q);
    RemoveCharAbsent(t, q);
    var rt := RemoveChar(t, q);
    assert RemoveChar(e, q) == e;
    assert RemoveChar(tq, q) == rt + e == rt;
  }

  // ---------------------------------------------------------------------
  // Code blocks

  /** Each line followed by a newline, in order. */
  function ConcatLines(ls: seq<string>): string
    decreases |ls|
  {
    if ls == [] then "" else ConcatLines(ls[..|ls| - 1]) + (ls[|ls| - 1] + "\n")
  }

  lemma ConcatLinesSnoc(c: string, pre: seq<string>, line: string)
    ensures c + ConcatLines(pre + [line]) == (c + ConcatLines(pre)) + (line + "\n")
  {
    SnocPrefix(pre, line);
    assert (c + ConcatLines(pre)) + (line + "\n") == c + (ConcatLines(pre) + (line + "\n"));
  }

  lemma {:induction false} ConcatLinesIsJoin(ls: seq<string>)
    ensures ConcatLines(ls) == Join(ls + [""], "\n")
    decreases |ls|
  {
    if ls != [] {
      var pre, l := ls[..|ls| - 1], ls[|ls| - 1];
      ConcatLinesIsJoin(pre);
      assert ls + [""] == (pre + [l]) + [""];
      JoinSnoc(pre + [l], "", "\n");
      if pre == [] {
        assert pre + [l] == [l];
      } else {
        JoinSnoc(pre, l, "\n");
        JoinSnoc(pre, "", "\n");
      }
    }
  }

  /** The captured text of a block splits back into exactly its lines
      (the last newline leaves one empty piece). */
  lemma CapturedLinesRoundTrip(ls: seq<string>)
    requires forall k :: 0 <= k < |ls| ==> '\n' !in ls[k]
    ensures Split(ConcatLines(ls), '\n') == ls + [""]
  {
    ConcatLinesIsJoin(ls);
    SplitJoin(ls + [""], '\n');
  }

  /** A line that stays inside an open block. */
  predicate InBlock(line: string) {
    !IsFence(line) && !IsToggle(line)
  }

  lemma BlockStep(s: ScanState, r: ScanState, pre: seq<string>, line: string)
    requires Valid(s) && !s.inHeader && s.open.Some? && InBlock(line)
    requires r == s.(open := Some(s.open.value.(content := s.open.value.content + ConcatLines(pre))))
    ensures Step(r, line) == s.(open := Some(s.open.value.(content := s.open.value.content + ConcatLines(pre + [line]))))
  {
    CodeLineGoesToBlock(r, line);
    ConcatLinesSnoc(s.open.value.content, pre, line);
  }

  /** Inside an open block, lines that are neither fences nor `---` only
      extend the block's text. */
  lemma {:induction false} BlockBody(s: ScanState, body: seq<string>)
    requires Valid(s) && !s.inHeader && s.open.Some? && Every(body, InBlock)
    ensures Run(s, body) == s.(open := Some(s.open.value.(content := s.open.value.content + ConcatLines(body))))
    decreases |body|
  {
    if body == [] {
      assert s.open.value.content + "" == s.open.value.content;
    } else {
      var pre, line := body[..|body| - 1], body[|body| - 1];
      EveryInit(body, InBlock);
      SnocParts(body);
      BlockBody(s, pre);
      RunSnoc(s, pre, line);
      BlockStep(s, Run(s, pre), pre, line);
    }
  }

  /** From an opening fence through its interior lines. */
  lemma OpenBlock(s: ScanState, open: string, body: seq<string>)
    requires Valid(s) && !s.inHeader && s.open.None? && IsFence(open) && Every(body, InBlock)
    ensures Run(s, [open] + body)
            == s.(open := Some(CodeBlock(FenceLanguage(open), ConcatLines(body), SectionLabel(s.sections, s.cursor))))
  {
    FenceIsNotToggle(open);
    RunAppend(s, [open], body);
    RunOne(s, open);
    FenceOpensBlock(s, open);
    BlockBody(Run(s, [open]), body);
    EmptyPrefix(ConcatLines(body));
  }

  /** Helper for OpenBlock: the empty text is a left unit of `+`. As a
      lemma the fact is brought in for one term only, which keeps the
      proof of OpenBlock small. */
  lemma EmptyPrefix(x: string)
    ensures "" + x == x
  {
  }

  /** A fenced block, from its opening to its closing fence: its text is its
      interior lines each followed by a newline, its language is the rest of
      the opening fence trimmed, its section is the title current at the
      opening (or "Unknown"). It is appended to `codeSnippets`, its server
      entry (if any) to the servers, and nothing else changes: neither fence
      nor any interior line reaches a section. */
  lemma CodeBlockRoundTrip(s: ScanState, open: string, body: seq<string>, close: string)
    requires Valid(s) && !s.inHeader && s.open.None? && Every(body, InBlock)
    requires IsFence(open) && IsFence(close)
    ensures var r := Run(s, [open] + body + [close]);
            var block := CodeBlock(FenceLanguage(open), ConcatLines(body), SectionLabel(s.sections, s.cursor));
            && r.codeSnippets == s.codeSnippets + [block]
            && r.servers == s.servers + FoundServers(s.sections, s.cursor, block.content)
            && r.(codeSnippets := s.codeSnippets, servers := s.servers) == s
  {
    FenceIsNotToggle(close);
    OpenBlock(s, open, body);
    RunSnoc(s, [open] + body, close);
    FenceClosesBlock(Run(s, [open] + body), close);
  }

  /** A block still open when the lines run out leaves no trace in the
      document: it is the document of the lines before its fence. */
  lemma UnterminatedBlockIsDropped(s: ScanState, open: string, body: seq<string>)
    requires Valid(s) && !s.inHeader && s.open.None? && IsFence(open) && Every(body, InBlock)
    ensures Run(s, [open] + body).open.Some?
    ensures Finish(Run(s, [open] + body)) == Finish(s)
  {
    OpenBlock(s, open, body);
  }

  // ---------------------------------------------------------------------
  // Headings

  lemma ThreeLines(s: ScanState, h1: string, h2: string, h3: string)
    requires Valid(s)
    ensures Run(s, [h1, h2, h3]) == Step(Step(Step(s, h1), h2), h3)
  {
    assert [h1, h2, h3] == ([h1] + [h2]) + [h3];
    assert [h1] + [h2] == [h1, h2];
    RunSnoc(s, [h1] + [h2], h3);
    RunSnoc(s, [h1], h2);
    RunOne(s, h1);
  }

  lemma SubheadingUnderNewHeading(s: ScanState, t1: string, t2: string)
    ensures var a := s.(sections := s.sections + [Section(1, t1, "", [], None)],
                        cursor := AtSection, topics := s.topics + [t1]);
            Subheading(a, t2)
            == s.(sections := s.sections + [Section(1, t1, "", [Subsection(t2, "", t1)], None)],
                  cursor := AtSubsection, topics := s.topics + [t1] + [t2])
  {
    var sec := Section(1, t1, "", [], None);
    SnocPrefix(s.sections, sec);
    assert [] + [Subsection(t2, "", t1)] == [Subsection(t2, "", t1)];
    assert (s.sections + [sec])[|s.sections| := sec.(subsections := [] + [Subsection(t2, "", t1)])]
           == s.sections + [Section(1, t1, "", [Subsection(t2, "", t1)], None)];
  }

  /** The first `## ` after a `# ` becomes its subsection. */
  lemma AttachAfterHeading(s: ScanState, h1: string, h2: string)
    requires Valid(s) && !s.inHeader && s.open.None?
    requires StartsWith(h1, "# ") && StartsWith(h2, "## ")
    ensures var t1, t2 := Trim(h1[2..]), Trim(h2[3..]);
            Step(Step(s, h1), h2)
            == s.(sections := s.sections + [Section(1, t1, "", [Subsection(t2, "", t1)], None)],
                  cursor := AtSubsection, topics := s.topics + [t1] + [t2])
  {
    HeadingIsNotToggleOrFence(h1);
    HeadingIsNotToggleOrFence(h2);
    HeadingOpensSection(s, h1);
    SubheadingAttachesOrIsRoot(Step(s, h1), h2);
    SubheadingUnderNewHeading(s, Trim(h1[2..]), Trim(h2[3..]));
  }

  lemma RootAfterSubsection(s: ScanState, t1: string, t2: string, t3: string)
    ensures var b := s.(sections := s.sections + [Section(1, t1, "", [Subsection(t2, "", t1)], None)],
                        cursor := AtSubsection, topics := s.topics + [t1] + [t2]);
            && Valid(b)
            && Subheading(b, t3)
               == s.(sections := s.sections + [Section(1, t1, "", [Subsection(t2, "", t1)], None),
                                               Section(2, t3, "", [], Some("Root"))],
                     cursor := AtSection, topics := s.topics + [t1, t2, t3])
  {
    var a, c := Section(1, t1, "", [Subsection(t2, "", t1)], None), Section(2, t3, "", [], Some("Root"));
    SnocPrefix(s.sections, a);
    assert s.sections + [a] + [c] == s.sections + [a, c];
    assert s.topics + [t1] + [t2] + [t3] == s.topics + [t1, t2, t3];
  }

  /** Only the first `## ` under a `# ` is a subsection: it becomes the
      current section, so the next `## ` finds no level-1 section and becomes
      a top-level entry with parent "Root". */
  lemma SecondSubheadingIsRoot(s: ScanState, h1: string, h2: string, h3: string)
    requires Valid(s) && !s.inHeader && s.open.None?
    requires StartsWith(h1, "# ") && StartsWith(h2, "## ") && StartsWith(h3, "## ")
    ensures var r := Run(s, [h1, h2, h3]);
            var t1, t2, t3 := Trim(h1[2..]), Trim(h2[3..]), Trim(h3[3..]);
            && r.sections == s.sections + [Section(1, t1, "", [Subsection(t2, "", t1)], None),
                                           Section(2, t3, "", [], Some("Root"))]
            && r.topics == s.topics + [t1, t2, t3]
            && r.cursor == AtSection
  {
    ThreeLines(s, h1, h2, h3);
    AttachAfterHeading(s, h1, h2);
    HeadingIsNotToggleOrFence(h3);
    RootAfterSubsection(s, Trim(h1[2..]), Trim(h2[3..]), Trim(h3[3..]));
    SubheadingAttachesOrIsRoot(Step(Step(s, h1), h2), h3);
  }

  /** A `## ` line with no current level-1 section (none yet, or the current
      one is a subsection or a "Root" entry) appends a top-level entry whose
      parent is "Root" and makes it current. */
  lemma SubheadingWithoutParentIsRoot(s: ScanState, line: string)
    requires Valid(s) && !s.inHeader && s.open.None? && StartsWith(line, "## ")
    requires !AtLevelOne(s.sections, s.cursor)
    ensures Step(s, line).sections == s.sections + [Section(2, Trim(line[3..]), "", [], Some("Root"))]
    ensures Step(s, line).cursor == AtSection
  {
    HeadingIsNotToggleOrFence(line);
    SubheadingAttachesOrIsRoot(s, line);
  }

  /** A line that is no delimiter, fence or heading. */
  predicate IsPlain(line: string) {
    !IsToggle(line) && !IsFence(line) && !StartsWith(line, "# ") && !StartsWith(line, "## ")
  }

  /** Text before the first heading is dropped. */
  lemma {:induction false} TextBeforeHeadingIsDropped(s: ScanState, lines: seq<string>)
    requires Valid(s) && !s.inHeader && s.open.None? && s.cursor == NoSection && Every(lines, IsPlain)
    ensures Run(s, lines) == s
    decreases |lines|
  {
    if lines != [] {
      var pre, line := lines[..|lines| - 1], lines[|lines| - 1];
      EveryInit(lines, IsPlain);
      TextBeforeHeadingIsDropped(s, pre);
      TextGoesToCurrentSection(s, line);
    }
  }

  // ---------------------------------------------------------------------
  // The heading tree and the topics

  function SubsectionTitles(subs: seq<Subsection>): (r: seq<string>)
    ensures |r| == |subs| && forall j :: 0 <= j < |subs| ==> r[j] == subs[j].title
  {
    seq(|subs|, j requires 0 <= j < |subs| => subs[j].title)
  }

  /** Every heading title of the tree, in document order. */
  function HeadingTitles(sections: seq<Section>): seq<string>
    decreases |sections|
  {
    if sections == [] then []
    else
      var last := sections[|sections| - 1];
      HeadingTitles(sections[..|sections| - 1]) + [last.title] + SubsectionTitles(last.subsections)
  }

  /** The shape the pass gives each top-level entry. */
  predicate SectionShape(sec: Section) {
    && ((sec.level == 1 && sec.parent == None) ||
        (sec.level == 2 && sec.parent == Some("Root") && sec.subsections == []))
    && forall j :: 0 <= j < |sec.subsections| ==> sec.subsections[j].parent == sec.title
  }

  predicate WellShaped(sections: seq<Section>) {
    forall i :: 0 <= i < |sections| ==> SectionShape(sections[i])
  }

  predicate ServersNamed(servers: seq<ServerMatch>) {
    forall k :: 0 <= k < |servers| ==> ToLower(servers[k].name) in ServerNames
  }

  /** What the pass keeps true: the raw topics are the heading titles in
      document order, every entry has its shape, and every server entry
      names a known server. */
  predicate Coherent(s: ScanState) {
    s.topics == HeadingTitles(s.sections) && WellShaped(s.sections) && ServersNamed(s.servers)
  }

  lemma CoherentFrame(s: ScanState, r: ScanState)
    requires Coherent(s) && r.topics == s.topics && r.sections == s.sections && r.servers == s.servers
    ensures Coherent(r)
  {
  }

  lemma HeadingTitlesAppend(sections: seq<Section>, sec: Section)
    ensures HeadingTitles(sections + [sec]) == HeadingTitles(sections) + [sec.title] + SubsectionTitles(sec.subsections)
  {
    SnocPrefix(sections, sec);
  }

  lemma HeadingTitlesReplaceLast(sections: seq<Section>, sec: Section)
    requires |sections| > 0
    ensures var k := |sections| - 1;
            HeadingTitles(sections[k := sec]) == HeadingTitles(sections[..k]) + [sec.title] + SubsectionTitles(sec.subsections)
  {
    var k := |sections| - 1;
    assert sections[k := sec][..k] == sections[..k];
  }

  /** A new `# ` section keeps the pass coherent. */
  lemma HeadingCoherent(s: ScanState, title: string)
    requires Coherent(s)
    ensures Coherent(s.(sections := s.sections + [Section(1, title, "", [], None)],
                        cursor := AtSection, topics := s.topics + [title]))
  {
    var sec := Section(1, title, "", [], None);
    HeadingTitlesAppend(s.sections, sec);
    assert SubsectionTitles(sec.subsections) == [];
    assert s.topics + [title] == HeadingTitles(s.sections) + [title] + [];
    assert forall i :: 0 <= i < |s.sections| ==> (s.sections + [sec])[i] == s.sections[i];
  }

  lemma AttachCoherent(s: ScanState, title: string)
    requires Valid(s) && Coherent(s) && AtLevelOne(s.sections, s.cursor)
    ensures Coherent(Subheading(s, title))
  {
    var n := |s.sections|;
    var last := s.sections[n - 1];
    var sec := last.(subsections := last.subsections + [Subsection(title, "", last.title)]);
    var secs := s.sections[n - 1 := sec];
    assert Subheading(s, title).sections == secs;
    HeadingTitlesReplaceLast(s.sections, sec);
    HeadingTitlesReplaceLast(s.sections, last);
    assert s.sections[n - 1 := last] == s.sections;
    assert SubsectionTitles(sec.subsections) == SubsectionTitles(last.subsections) + [title];
    assert SectionShape(sec);
  }

  lemma RootSubheadingCoherent(s: ScanState, title: string)
    requires Valid(s) && Coherent(s) && !AtLevelOne(s.sections, s.cursor)
    ensures Coherent(Subheading(s, title))
  {
    var sec := Section(2, title, "", [], Some("Root"));
    HeadingTitlesAppend(s.sections, sec);
    assert SubsectionTitles(sec.subsections) == [];
    assert s.topics + [title] == HeadingTitles(s.sections) + [title] + [];
    assert forall i :: 0 <= i < |s.sections| ==> (s.sections + [sec])[i] == s.sections[i];
  }

  lemma SubheadingCoherent(s: ScanState, title: string)
    requires Valid(s) && Coherent(s)
    ensures Coherent(Subheading(s, title))
  {
    if AtLevelOne(s.sections, s.cursor) {
      AttachCoherent(s, title);
    } else {
      RootSubheadingCoherent(s, title);
    }
  }

  lemma AppendContentKeepsLast(sections: seq<Section>, cursor: Cursor, text: string)
    requires CursorValid(sections, cursor) && cursor != NoSection
    ensures var n := |sections|;
            var sec := AppendContent(sections, cursor, text)[n - 1];
            && AppendContent(sections, cursor, text) == sections[n - 1 := sec]
            && sec.title == sections[n - 1].title && sec.level == sections[n - 1].level
            && sec.parent == sections[n - 1].parent
            && SubsectionTitles(sec.subsections) == SubsectionTitles(sections[n - 1].subsections)
            && forall j :: 0 <= j < |sec.subsections| ==> sec.subsections[j].parent == sections[n - 1].subsections[j].parent
  {
  }

  lemma AppendContentCoherent(s: ScanState, text: string)
    requires Valid(s) && s.cursor != NoSection && Coherent(s)
    ensures Coherent(s.(sections := AppendContent(s.sections, s.cursor, text)))
  {
    var n := |s.sections|;
    var last, sec := s.sections[n - 1], AppendContent(s.sections, s.cursor, text)[n - 1];
    AppendContentKeepsLast(s.sections, s.cursor, text);
    HeadingTitlesReplaceLast(s.sections, sec);
    HeadingTitlesReplaceLast(s.sections, last);
    assert s.sections[n - 1 := last] == s.sections;
    assert SectionShape(last);
  }

  lemma CloseCoherent(s: ScanState)
    requires Valid(s) && s.open.Some? && Coherent(s)
    ensures Coherent(CloseBlock(s))
  {
    var found := FoundServers(s.sections, s.cursor, s.open.value.content);
    var r := CloseBlock(s);
    assert r.servers == s.servers + found;
    assert forall k :: 0 <= k < |s.servers| ==> r.servers[k] == s.servers[k];
  }

  lemma StepCoherent(s: ScanState, line: string)
    requires Valid(s) && Coherent(s)
    ensures Coherent(Step(s, line))
  {
    if IsToggle(line) {
      ToggleFlipsHeader(s, line);
      CoherentFrame(s, Step(s, line));
    } else if s.inHeader {
      HeaderLineSetsOnlyTitleAndDate(s, line);
      CoherentFrame(s, Step(s, line));
    } else if IsFence(line) && s.open.None? {
      FenceOpensBlock(s, line);
      CoherentFrame(s, Step(s, line));
    } else if IsFence(line) {
      FenceClosesBlock(s, line);
      CloseCoherent(s);
    } else if s.open.Some? {
      CodeLineGoesToBlock(s, line);
      CoherentFrame(s, Step(s, line));
    } else if StartsWith(line, "# ") {
      HeadingOpensSection(s, line);
      HeadingCoherent(s, Trim(line[2..]));
    } else if StartsWith(line, "## ") {
      SubheadingAttachesOrIsRoot(s, line);
      SubheadingCoherent(s, Trim(line[3..]));
    } else if s.cursor != NoSection {
      TextGoesToCurrentSection(s, line);
      AppendContentCoherent(s, line + "\n");
    } else {
      TextGoesToCurrentSection(s, line);
    }
  }

  lemma {:induction false} RunCoherent(s: ScanState, lines: seq<string>)
    requires Valid(s) && Coherent(s)
    ensures Coherent(Run(s, lines))
    decreases |lines|
  {
    if lines != [] {
      RunCoherent(s, lines[..|lines| - 1]);
      StepCoherent(Run(s, lines[..|lines| - 1]), lines[|lines| - 1]);
    }
  }

  /** The position of the first occurrence of `x`. */
  function FirstIndex(s: seq<string>, x: string): (i: nat)
    requires x in s
    ensures i < |s| && s[i] == x && x !in s[..i]
  {
    if s[0] == x then 0
    else
      var i := 1 + FirstIndex(s[1..], x);
      assert s[..i] == [s[0]] + s[1..][..i - 1];
      i
  }

  lemma {:induction false} FirstIndexSnoc(s: seq<string>, x: string, y: string)
    requires y in s
    ensures FirstIndex(s + [x], y) == FirstIndex(s, y)
    decreases |s|
  {
    if s[0] != y {
      assert (s + [x])[1..] == s[1..] + [x];
      FirstIndexSnoc(s[1..], x, y);
    }
  }

  /** Deduplication keeps first occurrences in first-seen order. */
  lemma {:induction false} DedupFirstSeenOrder(s: seq<string>)
    ensures forall i, j :: 0 <= i < j < |Dedup(s)| ==> FirstIndex(s, Dedup(s)[i]) < FirstIndex(s, Dedup(s)[j])
    decreases |s|
  {
    if s != [] {
      var n := |s| - 1;
      var pre, x := s[..n], s[n];
      assert s == pre + [x];
      DedupFirstSeenOrder(pre);
      forall y | y in pre ensures FirstIndex(s, y) == FirstIndex(pre, y) {
        FirstIndexSnoc(pre, x, y);
      }
      if x !in pre {
        assert Dedup(s) == Dedup(pre) + [x];
        assert FirstIndex(s, x) == n;
      }
    }
  }

  /** The parsed `topics` are the titles of all headings of the tree, in
      first-seen order and without duplicates; there are no more of them
      than there are headings. */
  lemma ParsedTopics(lines: seq<string>)
    ensures var d := Parse(lines);
            var h := HeadingTitles(d.sections);
            && d.topics == Dedup(h)
            && (forall t :: t in d.topics <==> t in h)
            && NoDuplicates(d.topics)
            && |d.topics| <= |h|
            && forall i, j :: 0 <= i < j < |d.topics| ==> FirstIndex(h, d.topics[i]) < FirstIndex(h, d.topics[j])
  {
    RunCoherent(Init, lines);
    DedupFirstSeenOrder(HeadingTitles(Parse(lines).sections));
  }

  /** Every parsed top-level entry is a level-1 section without parent or
      a level-2 "Root" entry without subsections, and every subsection
      names its section as parent. */
  lemma ParsedSectionsWellShaped(lines: seq<string>)
    ensures WellShaped(Parse(lines).sections)
  {
    RunCoherent(Init, lines);
  }

  // ---------------------------------------------------------------------
  // Servers

  const CanonicalServerNames: seq<string> := ["Perplexity", "Firecrawl", "Agentql", "Repomix"]

  /** A matched server name, normalised, is one of four fixed spellings. */
  lemma CapitalizedServerName(name: string)
    requires ToLower(name) in ServerNames
    ensures Capitalize(name) in CanonicalServerNames
  {
    var w := ToLower(name);
    UpperOfLower(name[0]);
    ToLowerSlice(name, 1, |name|);
    assert Capitalize(name) == [UpperChar(w[0])] + w[1..];
    if w == "perplexity" {
      assert [UpperChar(w[0])] + w[1..] == "Perplexity";
    } else if w == "firecrawl" {
      assert [UpperChar(w[0])] + w[1..] == "Firecrawl";
    } else if w == "agentql" {
      assert [UpperChar(w[0])] + w[1..] == "Agentql";
    } else {
      assert [UpperChar(w[0])] + w[1..] == "Repomix";
    }
  }

  /** After the post-pass every server entry carries one of the four
      normalised names, differs from the raw match only in case, keeps the
      block's text as installation code, and is described by the first
      top-level section that mentions its name (or the placeholder). */
  lemma ParsedServers(lines: seq<string>)
    ensures var st := Run(Init, lines);
            var d := Parse(lines);
            && |d.mcpServers| == |st.servers|
            && forall k :: 0 <= k < |d.mcpServers| ==>
                 && d.mcpServers[k].name in CanonicalServerNames
                 && ToLower(d.mcpServers[k].name) == ToLower(st.servers[k].name)
                 && d.mcpServers[k].installationCode == st.servers[k].installationCode
                 && d.mcpServers[k].section == st.servers[k].section
                 && d.mcpServers[k].description == Describe(d.sections, d.mcpServers[k].name)
  {
    var st := Run(Init, lines);
    RunCoherent(Init, lines);
    forall k | 0 <= k < |st.servers|
      ensures Capitalize(st.servers[k].name) in CanonicalServerNames
      ensures ToLower(Capitalize(st.servers[k].name)) == ToLower(st.servers[k].name)
    {
      CapitalizedServerName(st.servers[k].name);
      LowerOfCapitalize(st.servers[k].name);
    }
  }
}
