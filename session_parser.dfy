/**
 * The session-document parser (`parseSessionContent`): one left-to-right
 * pass over the lines of an R-Markdown-like document that collects the
 * front-matter title and date, the heading tree, the fenced code blocks
 * and the MCP servers those blocks install.
 *
 * `Step` states what one line does to the scan state and `Run` folds it
 * over a prefix of the lines; the imperative `ParseSessionContent` is proved
 * to compute `Parse`, and the lemmas below state what the pass promises.
 */
module SessionParser {
  import opened Text

  // ---------------------------------------------------------------------
  // Data model

  /** A `## ` heading attached to the `# ` section above it. */
  datatype Subsection = Subsection(title: string, content: string, parent: string)

  /** An entry of the document's `sections`: a `# ` heading (level 1, no
      parent) or a `## ` heading that found no level-1 section to attach to
      (level 2, parent "Root", never any subsections). */
  datatype Section = Section(level: nat, title: string, content: string,
                             subsections: seq<Subsection>, parent: Option<string>)

  /** A fenced code block; `section` is the title current when it opened. */
  datatype CodeBlock = CodeBlock(language: string, content: string, section: string)

  /** A server found while scanning, before the post-pass names it. */
  datatype ServerMatch = ServerMatch(name: string, installationCode: string, section: string)

  datatype McpServer = McpServer(name: string, installationCode: string,
                                 section: string, description: string)

  datatype Document = Document(title: string, date: string, topics: seq<string>,
                               mcpServers: seq<McpServer>, codeSnippets: seq<CodeBlock>,
                               sections: seq<Section>)

  /** Where `currentSection` points. It is always the most recently created
      section: the last entry of `sections` or the last subsection of that
      entry. */
  datatype Cursor = NoSection | AtSection | AtSubsection

  datatype ScanState = ScanState(inHeader: bool, title: string, date: string,
                                 topics: seq<string>, sections: seq<Section>,
                                 cursor: Cursor, open: Option<CodeBlock>,
                                 codeSnippets: seq<CodeBlock>, servers: seq<ServerMatch>)

  const Init := ScanState(false, "", "", [], [], NoSection, None, [], [])

  const ServerNames: seq<string> := ["perplexity", "firecrawl", "agentql", "repomix"]

  const NoDescription := "No description available"

  // ---------------------------------------------------------------------
  // The current section

  predicate CursorValid(sections: seq<Section>, cursor: Cursor) {
    (cursor == AtSection ==> |sections| > 0) &&
    (cursor == AtSubsection ==> |sections| > 0 && |sections[|sections| - 1].subsections| > 0)
  }

  predicate Valid(s: ScanState) {
    CursorValid(s.sections, s.cursor)
  }

  function CursorTitle(sections: seq<Section>, cursor: Cursor): string
    requires CursorValid(sections, cursor) && cursor != NoSection
  {
    var last := sections[|sections| - 1];
    if cursor == AtSection then last.title else last.subsections[|last.subsections| - 1].title
  }

  /** `currentSection ? currentSection.title : 'Unknown'`. */
  function SectionLabel(sections: seq<Section>, cursor: Cursor): string
    requires CursorValid(sections, cursor)
  {
    if cursor == NoSection then "Unknown" else CursorTitle(sections, cursor)
  }

  /** `currentSection && currentSection.level === 1`. */
  predicate AtLevelOne(sections: seq<Section>, cursor: Cursor)
    requires CursorValid(sections, cursor)
  {
    cursor == AtSection && sections[|sections| - 1].level == 1
  }

  /** `currentSection.content += text`, on whichever object it points to. */
  function AppendContent(sections: seq<Section>, cursor: Cursor, text: string): (r: seq<Section>)
    requires CursorValid(sections, cursor) && cursor != NoSection
    ensures |r| == |sections| && CursorValid(r, cursor)
  {
    var k := |sections| - 1;
    var last := sections[k];
    if cursor == AtSection then sections[k := last.(content := last.content + text)]
    else
      var subs := last.subsections;
      var j := |subs| - 1;
      sections[k := last.(subsections := subs[j := subs[j].(content := subs[j].content + text)])]
  }

  // ---------------------------------------------------------------------
  // Line classification

  /** `line.trim() === '---'`: a front-matter delimiter. */
  predicate IsToggle(line: string) {
    Trim(line) == "---"
  }

  /** `line.startsWith('```')`: a code fence. */
  predicate IsFence(line: string) {
    StartsWith(line, "```")
  }

  /** `line.replace('title:', '').trim().replace(/"/g, '')`. */
  function TitleValue(line: string): string
    requires StartsWith(line, "title:")
  {
    RemoveChar(Trim(line[6..]), '"')
  }

  /** `line.replace('date:', '').trim()`. */
  function DateValue(line: string): string
    requires StartsWith(line, "date:")
  {
    Trim(line[5..])
  }

  /** `line.replace('```', '').trim()`. */
  function FenceLanguage(line: string): string
    requires IsFence(line)
  {
    Trim(line[3..])
  }

  /** `currentSection.title.includes('MCP') ||
      currentSection.title.toLowerCase().includes('server')`. */
  predicate IsServerSection(title: string) {
    Contains(title, "MCP") || Contains(ToLower(title), "server")
  }

  // ---------------------------------------------------------------------
  // `content.match(/perplexity|firecrawl|agentql|repomix/i)`

  /** Some server name occurs, ignoring case, at position `i`. */
  predicate ServerAt(low: string, i: int) {
    exists w :: w in ServerNames && MatchAt(low, w, i)
  }

  /** The leftmost match at or after position `i`, as written in `s`. */
  function FirstServerMatchFrom(s: string, i: nat): (r: Option<string>)
    requires i <= |s| + 1
    ensures r.None? <==> forall j :: i <= j <= |s| ==> !ServerAt(ToLower(s), j)
    ensures r.Some? ==> exists j :: i <= j <= |s| && MatchAt(s, r.value, j) && ToLower(r.value) in ServerNames
                                    && forall m :: i <= m < j ==> !ServerAt(ToLower(s), m)
    decreases |s| + 1 - i
  {
    if i > |s| then None
    else
      var low := ToLower(s);
      match FindFirst(ServerNames, w => MatchAt(low, w, i))
      case Some(k) =>
        var w := ServerNames[k];
        ToLowerSlice(s, i, i + |w|);
        assert MatchAt(low, w, i) && ServerAt(low, i);
        assert ToLower(s[i..i + |w|]) == w && MatchAt(s, s[i..i + |w|], i);
        Some(s[i..i + |w|])
      case None =>
        FirstServerMatchFrom(s, i + 1)
  }

  /** The matched text of the server-name regular expression, if any. */
  function FirstServerMatch(s: string): (r: Option<string>)
    ensures r.None? <==> forall w :: w in ServerNames ==> !Contains(ToLower(s), w)
    ensures r.Some? ==> ToLower(r.value) in ServerNames
    ensures r.Some? ==> exists j :: MatchAt(s, r.value, j) && forall m :: 0 <= m < j ==> !ServerAt(ToLower(s), m)
  {
    var r := FirstServerMatchFrom(s, 0);
    FirstServerMatchFacts(s, r);
    r
  }

  lemma FirstServerMatchFacts(s: string, r: Option<string>)
    requires r == FirstServerMatchFrom(s, 0)
    ensures r.None? <==> forall w :: w in ServerNames ==> !Contains(ToLower(s), w)
    ensures r.Some? ==> ToLower(r.value) in ServerNames
    ensures r.Some? ==> exists j :: MatchAt(s, r.value, j) && forall m :: 0 <= m < j ==> !ServerAt(ToLower(s), m)
  {
    if r.None? {
      NoServerAtMeansNoName(ToLower(s));
    } else {
      var j :| 0 <= j <= |s| && MatchAt(s, r.value, j) && ToLower(r.value) in ServerNames
               && forall m :: 0 <= m < j ==> !ServerAt(ToLower(s), m);
      MatchedNameOccurs(s, r.value, j);
    }
  }

  /** No position starts a name exactly when no name occurs at all. */
  lemma NoServerAtMeansNoName(low: string)
    requires forall j :: 0 <= j <= |low| ==> !ServerAt(low, j)
    ensures forall w :: w in ServerNames ==> !Contains(low, w)
  {
    forall w | w in ServerNames ensures !Contains(low, w) {
      if Contains(low, w) {
        var j :| 0 <= j <= |low| - |w| && MatchAt(low, w, j);
        assert ServerAt(low, j);
      }
    }
  }

  /** A matched piece of the text, lowered, occurs in the lowered text. */
  lemma MatchedNameOccurs(s: string, piece: string, j: int)
    requires MatchAt(s, piece, j)
    ensures MatchAt(ToLower(s), ToLower(piece), j)
  {
    ToLowerSlice(s, j, j + |piece|);
  }

  // ---------------------------------------------------------------------
  // One line of the scan

  /** The server entry a closing fence adds: one when the current section
      is a server section and the block's text names a known server. */
  function FoundServers(sections: seq<Section>, cursor: Cursor, code: string): (r: seq<ServerMatch>)
    requires CursorValid(sections, cursor)
    ensures |r| <= 1
    ensures |r| == 1 <==> cursor != NoSection && IsServerSection(CursorTitle(sections, cursor))
                          && FirstServerMatch(code).Some?
    ensures |r| == 1 ==> r[0] == ServerMatch(FirstServerMatch(code).value, code, CursorTitle(sections, cursor))
  {
    if cursor != NoSection && IsServerSection(CursorTitle(sections, cursor)) then
      match FirstServerMatch(code)
      case Some(name) => [ServerMatch(name, code, CursorTitle(sections, cursor))]
      case None => []
    else []
  }

  /** What closing the open code block does: the block is recorded and, in
      a server section, the first server name in its text is recorded. */
  function CloseBlock(s: ScanState): (r: ScanState)
    requires Valid(s) && s.open.Some?
  {
    var block := s.open.value;
    s.(codeSnippets := s.codeSnippets + [block],
       servers := s.servers + FoundServers(s.sections, s.cursor, block.content),
       open := None)
  }

  /** A `## ` heading: a subsection of a current level-1 section, or else a
      new top-level entry whose parent is "Root". */
  function Subheading(s: ScanState, title: string): (r: ScanState)
    requires Valid(s)
  {
    if AtLevelOne(s.sections, s.cursor) then
      var k := |s.sections| - 1;
      var last := s.sections[k];
      var sub := Subsection(title, "", last.title);
      s.(sections := s.sections[k := last.(subsections := last.subsections + [sub])],
         cursor := AtSubsection, topics := s.topics + [title])
    else
      s.(sections := s.sections + [Section(2, title, "", [], Some("Root"))],
         cursor := AtSection, topics := s.topics + [title])
  }

  /** The effect of one line, in the order the guards are tested. */
  function Step(s: ScanState, line: string): (r: ScanState)
    requires Valid(s)
    ensures Valid(r)
  {
    if IsToggle(line) then s.(inHeader := !s.inHeader)
    else if s.inHeader then
      if StartsWith(line, "title:") then s.(title := TitleValue(line))
      else if StartsWith(line, "date:") then s.(date := DateValue(line))
      else s
    else if IsFence(line) then
      if s.open.None? then
        s.(open := Some(CodeBlock(FenceLanguage(line), "", SectionLabel(s.sections, s.cursor))))
      else CloseBlock(s)
    else if s.open.Some? then
      s.(open := Some(s.open.value.(content := s.open.value.content + (line + "\n"))))
    else if StartsWith(line, "# ") then
      var title := Trim(line[2..]);
      s.(sections := s.sections + [Section(1, title, "", [], None)],
         cursor := AtSection, topics := s.topics + [title])
    else if StartsWith(line, "## ") then
      Subheading(s, Trim(line[3..]))
    else if s.cursor != NoSection then
      s.(sections := AppendContent(s.sections, s.cursor, line + "\n"))
    else s
  }

  /** The scan state after the given lines. */
  function Run(s: ScanState, lines: seq<string>): (r: ScanState)
    requires Valid(s)
    ensures Valid(r)
    decreases |lines|
  {
    if lines == [] then s else Step(Run(s, lines[..|lines| - 1]), lines[|lines| - 1])
  }

  // ---------------------------------------------------------------------
  // Post-pass

  /** `[...new Set(topics)]`: first occurrences, in order. */
  function Dedup(s: seq<string>): (r: seq<string>)
    ensures |r| <= |s|
    ensures forall x :: x in r <==> x in s
    ensures NoDuplicates(r)
    decreases |s|
  {
    if s == [] then []
    else
      var d := Dedup(s[..|s| - 1]);
      if s[|s| - 1] in s[..|s| - 1] then d else d + [s[|s| - 1]]
  }

  predicate NoDuplicates(s: seq<string>) {
    forall i, j :: 0 <= i < j < |s| ==> s[i] != s[j]
  }

  /** The description search of the post-pass matches a section's title or content. */
  predicate Describes(sec: Section, name: string) {
    Contains(ToLower(sec.title), ToLower(name)) || Contains(ToLower(sec.content), ToLower(name))
  }

  /** The content of the first top-level section that mentions `name`. */
  function Describe(sections: seq<Section>, name: string): (r: string)
    ensures (forall i :: 0 <= i < |sections| ==> !Describes(sections[i], name)) ==> r == NoDescription
    ensures forall i :: 0 <= i < |sections| && Describes(sections[i], name)
                        && (forall j :: 0 <= j < i ==> !Describes(sections[j], name))
                        ==> r == sections[i].content
  {
    match FindFirst(sections, sec => Describes(sec, name))
    case Some(i) => sections[i].content
    case None => NoDescription
  }

  function NameServer(m: ServerMatch, sections: seq<Section>): McpServer {
    var name := Capitalize(m.name);
    McpServer(name, m.installationCode, m.section, Describe(sections, name))
  }

  /** `result.mcpServers.map(...)`. */
  function PostProcess(servers: seq<ServerMatch>, sections: seq<Section>): (r: seq<McpServer>)
    ensures |r| == |servers|
  {
    seq(|servers|, k requires 0 <= k < |servers| => NameServer(servers[k], sections))
  }

  function Finish(s: ScanState): Document {
    Document(s.title, s.date, Dedup(s.topics), PostProcess(s.servers, s.sections),
             s.codeSnippets, s.sections)
  }

  /** What `parseSessionContent` returns for a document with these lines:
      its topics are those the scan recorded, each once, and it has one
      server per match the scan found. */
  function Parse(lines: seq<string>): (r: Document)
    ensures NoDuplicates(r.topics)
    ensures forall t :: t in r.topics <==> t in Run(Init, lines).topics
    ensures |r.mcpServers| == |Run(Init, lines).servers|
  {
    Finish(Run(Init, lines))
  }

  // ---------------------------------------------------------------------
  // One line, case by case

  /** A `---` line flips header mode and does nothing else, wherever it
      appears: in the header, in a code block, or in a section. */
  lemma ToggleFlipsHeader(s: ScanState, line: string)
    requires Valid(s) && IsToggle(line)
    ensures Step(s, line) == s.(inHeader := !s.inHeader)
  {
  }

  /** Inside the header only `title:` and `date:` lines have an effect, on
      `title` and `date` alone. */
  lemma HeaderLineSetsOnlyTitleAndDate(s: ScanState, line: string)
    requires Valid(s) && s.inHeader && !IsToggle(line)
    ensures StartsWith(line, "title:") ==> Step(s, line) == s.(title := TitleValue(line))
    ensures !StartsWith(line, "title:") && StartsWith(line, "date:") ==> Step(s, line) == s.(date := DateValue(line))
    ensures !StartsWith(line, "title:") && !StartsWith(line, "date:") ==> Step(s, line) == s
  {
  }

  /** An opening fence starts an empty block labelled with the current
      section's title, or "Unknown"; nothing else changes. */
  lemma FenceOpensBlock(s: ScanState, line: string)
    requires Valid(s) && !s.inHeader && !IsToggle(line) && IsFence(line) && s.open.None?
    ensures Step(s, line) == s.(open := Some(CodeBlock(FenceLanguage(line), "", SectionLabel(s.sections, s.cursor))))
  {
  }

  /** A closing fence appends the open block to `codeSnippets`, appends
      the server entry it yields (if any) to the servers, closes the block
      and changes nothing else. */
  lemma FenceClosesBlock(s: ScanState, line: string)
    requires Valid(s) && !s.inHeader && !IsToggle(line) && IsFence(line) && s.open.Some?
    ensures Step(s, line) == CloseBlock(s)
    ensures Step(s, line).codeSnippets == s.codeSnippets + [s.open.value]
    ensures Step(s, line).servers == s.servers + FoundServers(s.sections, s.cursor, s.open.value.content)
    ensures Step(s, line).open == None
    ensures Step(s, line).(codeSnippets := s.codeSnippets, servers := s.servers, open := s.open) == s
  {
  }

  /** Inside a block every other line is appended, with a newline, to the
      block alone. */
  lemma CodeLineGoesToBlock(s: ScanState, line: string)
    requires Valid(s) && !s.inHeader && !IsToggle(line) && !IsFence(line) && s.open.Some?
    ensures Step(s, line) == s.(open := Some(s.open.value.(content := s.open.value.content + (line + "\n"))))
  {
  }

  /** A `# ` line appends a new level-1 section, makes it current and
      records its title as a topic. */
  lemma HeadingOpensSection(s: ScanState, line: string)
    requires Valid(s) && !s.inHeader && s.open.None? && !IsToggle(line) && !IsFence(line)
    requires StartsWith(line, "# ")
    ensures Step(s, line) == s.(sections := s.sections + [Section(1, Trim(line[2..]), "", [], None)],
                                cursor := AtSection, topics := s.topics + [Trim(line[2..])])
  {
  }

  /** A `## ` line becomes a subsection only under a current level-1 section;
      otherwise it becomes a top-level entry whose parent is "Root". Either
      way the new entry is current, its title joins the topics, and nothing
      else changes. */
  lemma SubheadingAttachesOrIsRoot(s: ScanState, line: string)
    requires Valid(s) && !s.inHeader && s.open.None? && !IsToggle(line) && !IsFence(line)
    requires StartsWith(line, "## ")
    ensures Step(s, line) == Subheading(s, Trim(line[3..]))
    ensures var r, t, k := Step(s, line), Trim(line[3..]), |s.sections| - 1;
            AtLevelOne(s.sections, s.cursor) ==>
              && r.sections == s.sections[k := s.sections[k].(subsections := s.sections[k].subsections + [Subsection(t, "", s.sections[k].title)])]
              && r.cursor == AtSubsection
    ensures var r, t := Step(s, line), Trim(line[3..]);
            !AtLevelOne(s.sections, s.cursor) ==>
              r.sections == s.sections + [Section(2, t, "", [], Some("Root"))] && r.cursor == AtSection
    ensures var r := Step(s, line);
            && r.topics == s.topics + [Trim(line[3..])]
            && r.(sections := s.sections, cursor := s.cursor, topics := s.topics) == s
  {
    SubheadingIsNotHeading(line);
  }

  /** Under a current level-1 section, wherever it stands in the document, a
      `## ` line appends a subsection with that section's title as parent,
      and that subsection becomes current. */
  lemma SubheadingAttaches(s: ScanState, line: string)
    requires Valid(s) && !s.inHeader && s.open.None? && !IsToggle(line) && !IsFence(line)
    requires StartsWith(line, "## ") && AtLevelOne(s.sections, s.cursor)
    ensures var r, k := Step(s, line), |s.sections| - 1;
            && |r.sections| == |s.sections|
            && r.sections[..k] == s.sections[..k]
            && r.sections[k].subsections == s.sections[k].subsections + [Subsection(Trim(line[3..]), "", s.sections[k].title)]
            && r.sections[k].(subsections := s.sections[k].subsections) == s.sections[k]
            && r.cursor == AtSubsection
            && CursorTitle(r.sections, r.cursor) == Trim(line[3..])
            && r.topics == s.topics + [Trim(line[3..])]
  {
    SubheadingAttachesOrIsRoot(s, line);
  }

  lemma SubheadingIsNotHeading(line: string)
    requires StartsWith(line, "## ")
    ensures !StartsWith(line, "# ")
  {
    assert line[1] == line[..3][1] == '#';
    assert "# "[1] == ' ';
  }

  /** Any other line is appended, with a newline, to the current section
      only, and dropped when there is none. */
  lemma TextGoesToCurrentSection(s: ScanState, line: string)
    requires Valid(s) && !s.inHeader && s.open.None? && !IsToggle(line) && !IsFence(line)
    requires !StartsWith(line, "# ") && !StartsWith(line, "## ")
    ensures s.cursor == NoSection ==> Step(s, line) == s
    ensures s.cursor != NoSection ==> Step(s, line) == s.(sections := AppendContent(s.sections, s.cursor, line + "\n"))
  {
  }

  // ---------------------------------------------------------------------
  // The pass as the source writes it

  /** The body of the `for` loop of `parseSessionContent`: one line's
      effect on the header flag, the current section, the open code block
      and the fields of the result being built. */
  method ScanLine(st: ScanState, line: string) returns (next: ScanState)
    requires Valid(st)
    ensures next == Step(st, line)
  {
    var inYamlHeader, currentSection, currentCodeBlock := st.inHeader, st.cursor, st.open;
    var title, date, topics := st.title, st.date, st.topics;
    var sections, codeSnippets, mcpServers := st.sections, st.codeSnippets, st.servers;
    if Trim(line) == "---" {
      ToggleFlipsHeader(st, line);
      inYamlHeader := !inYamlHeader;
    } else if inYamlHeader {
      HeaderLineSetsOnlyTitleAndDate(st, line);
      if StartsWith(line, "title:") {
        title := TitleValue(line);
      } else if StartsWith(line, "date:") {
        date := DateValue(line);
      }
    } else if StartsWith(line, "```") {
      if currentCodeBlock.None? {
        FenceOpensBlock(st, line);
        var language := FenceLanguage(line);
        currentCodeBlock := Some(CodeBlock(language, "", SectionLabel(sections, currentSection)));
      } else {
        next := CloseCodeBlock(st, line);
        return;
      }
    } else if currentCodeBlock.Some? {
      CodeLineGoesToBlock(st, line);
      currentCodeBlock := Some(currentCodeBlock.value.(content := currentCodeBlock.value.content + (line + "\n")));
    } else if StartsWith(line, "# ") {
      HeadingOpensSection(st, line);
      var heading := Trim(line[2..]);
      sections := sections + [Section(1, heading, "", [], None)];
      currentSection := AtSection;
      topics := topics + [heading];
    } else if StartsWith(line, "## ") {
      next := OpenSubheading(st, line);
      return;
    } else {
      TextGoesToCurrentSection(st, line);
      if currentSection == AtSection {
        var k := |sections| - 1;
        sections := sections[k := sections[k].(content := sections[k].content + (line + "\n"))];
      } else if currentSection == AtSubsection {
        var k := |sections| - 1;
        var subs := sections[k].subsections;
        var j := |subs| - 1;
        subs := subs[j := subs[j].(content := subs[j].content + (line + "\n"))];
        sections := sections[k := sections[k].(subsections := subs)];
      }
    }
    next := ScanState(inYamlHeader, title, date, topics, sections, currentSection,
                      currentCodeBlock, codeSnippets, mcpServers);
  }

  /** A closing fence: the block is recorded, and in a server section a
      block whose text names a known server also records that server. */
  method CloseCodeBlock(st: ScanState, line: string) returns (next: ScanState)
    requires Valid(st) && !IsToggle(line) && !st.inHeader && IsFence(line) && st.open.Some?
    ensures next == Step(st, line)
  {
    FenceClosesBlock(st, line);
    var currentSection, sections := st.cursor, st.sections;
    var block := st.open.value;
    var codeSnippets := st.codeSnippets + [block];
    var mcpServers := st.servers;
    if currentSection != NoSection && IsServerSection(CursorTitle(sections, currentSection)) {
      var serverMatch := FirstServerMatch(block.content);
      if serverMatch.Some? {
        mcpServers := mcpServers + [ServerMatch(serverMatch.value, block.content,
                                                CursorTitle(sections, currentSection))];
      }
    }
    next := st.(open := None, codeSnippets := codeSnippets, servers := mcpServers);
  }

  /** A `## ` heading: a subsection of the current top-level section, or a
      level-2 section of its own. */
  method OpenSubheading(st: ScanState, line: string) returns (next: ScanState)
    requires Valid(st) && !IsToggle(line) && !st.inHeader && !IsFence(line) && st.open.None?
    requires StartsWith(line, "## ")
    ensures next == Step(st, line)
  {
    SubheadingAttachesOrIsRoot(st, line);
    var currentSection, sections := st.cursor, st.sections;
    var heading := Trim(line[3..]);
    var k := |sections| - 1;
    if currentSection == AtSection && sections[k].level == 1 {
      var sub := Subsection(heading, "", sections[k].title);
      sections := sections[k := sections[k].(subsections := sections[k].subsections + [sub])];
      currentSection := AtSubsection;
    } else {
      sections := sections + [Section(2, heading, "", [], Some("Root"))];
      currentSection := AtSection;
    }
    next := st.(topics := st.topics + [heading], sections := sections, cursor := currentSection);
  }

  /** `parseSessionContent` with the file's text in place of the file read:
      the text is split into lines, scanned once, then post-processed. */
  method ParseSessionContent(content: string) returns (result: Document)
    ensures result == Parse(Split(content, '\n'))
  {
    var lines := Split(content, '\n');
    var st := Init;
    for i := 0 to |lines|
      invariant Valid(st) && st == Run(Init, lines[..i])
    {
      assert lines[..i + 1][..i] == lines[..i];
      st := ScanLine(st, lines[i]);
    }
    assert lines[..|lines|] == lines;
    result := Document(st.title, st.date, Dedup(st.topics), PostProcess(st.servers, st.sections),
                       st.codeSnippets, st.sections);
  }
}
