/**
 * The canned replies of the simple chat server: `processMessage` and the
 * `topics` table of simple-interface.js.
 *
 * The message is lowered once. A greeting word anywhere in it wins; then
 * the topics are tried in the table's order by their lowered names; then
 * the names of the MCP servers lead to the MCP topic and a few note-taking
 * words to the note-taking topic; anything else gets a fixed default.
 * Every test is a substring test.
 *
 * Which reply is chosen is a `Reply`; its text is `ReplyText`, kept apart
 * so that reasoning about the choice never carries the long texts.
 */
module ChatReplies {
  import opened Text

  /** A reply: the greeting, the content of the topic at a position of the
      table, or the default. */
  datatype Reply = GreetingReply | TopicContent(index: nat) | DefaultReply

  /** The names of the `topics` object, in the order its entries are
      enumerated. */
  const TopicNames: seq<string> := ["Claude Code", "MCP Servers", "Note Taking", "Knowledge Architecture"]

  const McpServersTopic := 1
  const NoteTakingTopic := 2
  const KnowledgeArchitectureTopic := 3

  const GreetingWords: seq<string> := ["hello", "hi", "hey"]
  const ServerTerms: seq<string> := ["perplexity", "firecrawl", "agentql", "repomix"]
  const NoteTerms: seq<string> := ["notes", "note taking", "obsidian", "reflect"]

  /** Some term of the list occurs in the lowered message. */
  predicate MentionsAny(lower: string, terms: seq<string>) {
    exists k :: 0 <= k < |terms| && Contains(lower, terms[k])
  }

  /** The lowered message contains the topic's lowered name. */
  predicate NamesTopic(lower: string, name: string) {
    Contains(lower, ToLower(name))
  }

  /** The replies after the greeting check: the first topic named, then the
      server names, then the note-taking words, then the default. */
  function TopicReply(lower: string): (r: Reply)
    ensures r.TopicContent? ==> r.index < |TopicNames|
    ensures r != GreetingReply
  {
    match FindFirst(TopicNames, name => NamesTopic(lower, name))
    case Some(k) => TopicContent(k)
    case None =>
      if MentionsAny(lower, ServerTerms) then TopicContent(McpServersTopic)
      else if MentionsAny(lower, NoteTerms) then TopicContent(NoteTakingTopic)
      else DefaultReply
  }

  /** `processMessage(message)`: which reply it returns. */
  function ProcessMessage(message: string): (r: Reply)
    ensures r.TopicContent? ==> r.index < |TopicNames|
    ensures r == GreetingReply <==> MentionsAny(ToLower(message), GreetingWords)
  {
    var lower := ToLower(message);
    if MentionsAny(lower, GreetingWords) then GreetingReply else TopicReply(lower)
  }

  /** Without a greeting, the first topic whose name the message contains
      (ignoring case) is answered with. */
  lemma TopicByName(message: string, k: int)
    requires !MentionsAny(ToLower(message), GreetingWords)
    requires FirstAt(TopicNames, name => NamesTopic(ToLower(message), name), k)
    ensures ProcessMessage(message) == TopicContent(k)
  {
    FirstAtIsFindFirst(TopicNames, name => NamesTopic(ToLower(message), name), k);
  }

  /** Without a greeting or a topic name, a server name gets the MCP
      servers topic, and otherwise a note-taking word gets the note-taking
      topic. */
  lemma TermsAfterTopics(message: string)
    requires !MentionsAny(ToLower(message), GreetingWords)
    requires forall k :: 0 <= k < |TopicNames| ==> !NamesTopic(ToLower(message), TopicNames[k])
    ensures MentionsAny(ToLower(message), ServerTerms) ==> ProcessMessage(message) == TopicContent(McpServersTopic)
    ensures !MentionsAny(ToLower(message), ServerTerms) && MentionsAny(ToLower(message), NoteTerms) ==>
              ProcessMessage(message) == TopicContent(NoteTakingTopic)
  {
    assert FindFirst(TopicNames, name => NamesTopic(ToLower(message), name)) == None;
  }

  /** The default is sent exactly when nothing in the message is
      recognised. */
  lemma DefaultWhenNothingMatches(message: string)
    ensures var lower := ToLower(message);
            ProcessMessage(message) == DefaultReply <==>
              && !MentionsAny(lower, GreetingWords)
              && (forall k :: 0 <= k < |TopicNames| ==> !NamesTopic(lower, TopicNames[k]))
              && !MentionsAny(lower, ServerTerms) && !MentionsAny(lower, NoteTerms)
  {
    var lower := ToLower(message);
    if !MentionsAny(lower, GreetingWords) && forall k :: 0 <= k < |TopicNames| ==> !NamesTopic(lower, TopicNames[k]) {
      TermsAfterTopics(message);
    }
  }

  /** The reply depends on the message only through its lowered form. */
  lemma CaseInsensitive(a: string, b: string)
    requires ToLower(a) == ToLower(b)
    ensures ProcessMessage(a) == ProcessMessage(b)
  {
  }

  /** The table's names, lowered, are the lower-case keys the message is
      searched for. */
  lemma ClaudeCodeKey() ensures ToLower(TopicNames[0]) == "claude code" {
    assert ToLower("Claude Code") == "claude code";
  }

  lemma McpServersKey() ensures ToLower(TopicNames[1]) == "mcp servers" {
    assert ToLower("MCP Servers") == "mcp servers";
  }

  lemma NoteTakingKey() ensures ToLower(TopicNames[2]) == "note taking" {
    assert ToLower("Note Taking") == "note taking";
  }

  lemma KnowledgeArchitectureKey() ensures ToLower(TopicNames[3]) == "knowledge architecture" {
    assert ToLower("Knowledge Architecture") == "knowledge architecture";
  }

  /** The note-taking word "note taking" never decides a reply: the topic
      of the same name, or one before it, always answers first. */
  lemma NoteTakingWordIsShadowed(message: string)
    requires !MentionsAny(ToLower(message), GreetingWords)
    requires Contains(ToLower(message), "note taking")
    ensures ProcessMessage(message).TopicContent? && ProcessMessage(message).index <= NoteTakingTopic
  {
    NoteTakingKey();
    var lower := ToLower(message);
    assert NamesTopic(lower, TopicNames[2]);
    FirstSatisfying(TopicNames, name => NamesTopic(lower, name), 2);
  }

  // ---------------------------------------------------------------------
  // The greeting test as written, and as evidently intended

  /** "hi" occurs inside "architecture". */
  lemma HiInArchitecture()
    ensures Contains("knowledge architecture", "hi")
  {
    assert MatchAt("knowledge architecture", "hi", 13);
  }

  /** A message that contains the topic's name contains "hi". */
  lemma ArchitectureNameGreets(message: string)
    requires NamesTopic(ToLower(message), TopicNames[KnowledgeArchitectureTopic])
    ensures MentionsAny(ToLower(message), GreetingWords)
  {
    KnowledgeArchitectureKey();
    HiInArchitecture();
    ContainsTransitive(ToLower(message), "knowledge architecture", "hi");
    assert Contains(ToLower(message), GreetingWords[1]);
  }

  /** As written, the knowledge-architecture topic is never answered. */
  lemma ArchitectureNeverAnswered(message: string)
    ensures ProcessMessage(message) != TopicContent(KnowledgeArchitectureTopic)
  {
    if NamesTopic(ToLower(message), TopicNames[KnowledgeArchitectureTopic]) {
      ArchitectureNameGreets(message);
    }
  }

  /** Asking for the topic by its name is answered with the greeting. */
  lemma ArchitectureQuestionGreets()
    ensures ProcessMessage("Knowledge Architecture") == GreetingReply
  {
    KnowledgeArchitectureKey();
    HiInArchitecture();
    assert Contains(ToLower("Knowledge Architecture"), GreetingWords[1]);
  }

  /** Characters of a word in a regular expression's sense. */
  predicate WordChar(c: char) {
    'a' <= c <= 'z' || 'A' <= c <= 'Z' || '0' <= c <= '9' || c == '_'
  }

  /** `w` occurs at `i` as a whole word. */
  predicate WordAt(s: string, w: string, i: int) {
    MatchAt(s, w, i) && (i == 0 || !WordChar(s[i - 1])) && (i + |w| == |s| || !WordChar(s[i + |w|]))
  }

  predicate HasWord(s: string, w: string) {
    exists i | 0 <= i <= |s| - |w| :: WordAt(s, w, i)
  }

  predicate GreetsByWord(lower: string) {
    exists k :: 0 <= k < |GreetingWords| && HasWord(lower, GreetingWords[k])
  }

  /** `processMessage` with the greeting words matched as whole words. */
  function ProcessMessageByWord(message: string): (r: Reply)
    ensures r.TopicContent? ==> r.index < |TopicNames|
    ensures r == GreetingReply <==> GreetsByWord(ToLower(message))
  {
    var lower := ToLower(message);
    if GreetsByWord(lower) then GreetingReply else TopicReply(lower)
  }

  /** Matching words changes only the greeting test: a message without
      any greeting substring gets the same reply either way. */
  lemma ByWordAgrees(message: string)
    requires !MentionsAny(ToLower(message), GreetingWords)
    ensures ProcessMessageByWord(message) == ProcessMessage(message)
  {
    var lower := ToLower(message);
    forall k | 0 <= k < |GreetingWords| ensures HasWord(lower, GreetingWords[k]) ==> Contains(lower, GreetingWords[k]) {
      WordIsContained(lower, GreetingWords[k]);
    }
  }

  /** A whole word is in particular a substring. */
  lemma WordIsContained(s: string, w: string)
    ensures HasWord(s, w) ==> Contains(s, w)
  {
    if HasWord(s, w) {
      var i :| 0 <= i <= |s| - |w| && WordAt(s, w, i);
      assert MatchAt(s, w, i);
    }
  }

  /** The only "h" of "knowledge architecture". */
  lemma OnlyH(i: int)
    ensures 0 <= i < 22 && "knowledge architecture"[i] == 'h' ==> i == 13
  {
  }

  /** No greeting word stands alone in "knowledge architecture": its only
      "h" follows a letter. */
  lemma NoGreetingWordInArchitecture()
    ensures !GreetsByWord("knowledge architecture")
  {
    var s := "knowledge architecture";
    forall i | 0 <= i <= |s| - 2 ensures !WordAt(s, "hi", i) {
      MatchAtChar(s, "hi", i, 0);
      OnlyH(i);
      assert WordChar(s[12]);
    }
    forall i | 0 <= i <= |s| - 5 ensures !MatchAt(s, "hello", i) {
      MatchAtChar(s, "hello", i, 0);
      OnlyH(i);
      MatchAtChar(s, "hello", i, 1);
    }
    forall i | 0 <= i <= |s| - 3 ensures !MatchAt(s, "hey", i) {
      MatchAtChar(s, "hey", i, 0);
      OnlyH(i);
      MatchAtChar(s, "hey", i, 1);
    }
    assert GreetingWords == ["hello", "hi", "hey"];
  }

  /** "knowledge architecture" does not name the Claude Code topic: its
      only "l" is not preceded by "c". */
  lemma NoClaudeCodeInArchitecture()
    ensures !Contains("knowledge architecture", "claude code")
  {
    var s := "knowledge architecture";
    forall i | 0 <= i <= |s| - 11 ensures !MatchAt(s, "claude code", i) {
      MatchAtChar(s, "claude code", i, 1);
      MatchAtChar(s, "claude code", i, 0);
    }
  }

  /** "knowledge architecture" does not name the MCP Servers topic: it has
      no "m". */
  lemma NoMcpServersInArchitecture()
    ensures !Contains("knowledge architecture", "mcp servers")
  {
    var s := "knowledge architecture";
    assert 'm' !in s;
    forall i | 0 <= i <= |s| - 11 ensures !MatchAt(s, "mcp servers", i) {
      MatchAtChar(s, "mcp servers", i, 0);
    }
  }

  /** "knowledge architecture" does not name the Note Taking topic: its
      only "k" comes first. */
  lemma NoNoteTakingInArchitecture()
    ensures !Contains("knowledge architecture", "note taking")
  {
    var s := "knowledge architecture";
    forall i | 0 <= i <= |s| - 11 ensures !MatchAt(s, "note taking", i) {
      MatchAtChar(s, "note taking", i, 7);
    }
  }

  /** With whole words, asking for the topic by name is answered with it. */
  lemma ByWordAnswersArchitecture()
    ensures ProcessMessageByWord("Knowledge Architecture") == TopicContent(KnowledgeArchitectureTopic)
  {
    ClaudeCodeKey();
    McpServersKey();
    NoteTakingKey();
    KnowledgeArchitectureKey();
    var lower := ToLower("Knowledge Architecture");
    NoGreetingWordInArchitecture();
    NoClaudeCodeInArchitecture();
    NoMcpServersInArchitecture();
    NoNoteTakingInArchitecture();
    assert MatchAt(lower, "knowledge architecture", 0);
    assert FirstAt(TopicNames, name => NamesTopic(lower, name), 3);
    FirstAtIsFindFirst(TopicNames, name => NamesTopic(lower, name), 3);
  }

  /** And a greeting on its own still greets. */
  lemma ByWordGreets()
    ensures ProcessMessageByWord("Hi") == GreetingReply
  {
    assert ToLower("Hi") == "hi";
    assert WordAt("hi", GreetingWords[1], 0);
  }

  // ---------------------------------------------------------------------
  // The texts

  const Greeting := "Hello! I'm your AI Knowledge Sharing Assistant. How can I help you today?"

  const DefaultText :=
    "I can provide information about Claude Code, MCP Servers, Note Taking methods, and Knowledge Architecture. "
    + "Please ask me about any of these topics!"

  const ClaudeCodeContent: string :=
    "Claude Code is one of the most balanced tools for good results, thinking, and effective tool calling. Key tips include:\n"
    + "    \n"
    + "1. Reset Context: Claude Code has finite context, which is beneficial as you're aware of what the LLM knows.\n"
    + "   Use README.md, CLAUDE.md, and optional ai_docs for context.\n"
    + "\n"
    + "2. CLAUDE.md configuration: Initialize with /init or create manually for project-specific instructions.\n"
    + "\n"
    + "3. Avoid failure modes: Sonnet 3.7 tends to create mock data; add strict rules to CLAUDE.md.\n"
    + "\n"
    + "4. Reset context before it runs out: Use /compact before getting below 20%.\n"
    + "\n"
    + "5. Division of labor: Think about what you should do vs. what AI workflows should do.\n"
    + "\n"
    + "6. Try to have fun: Explore interesting aspects of your interests."

  const McpServersContent: string :=
    "MCP servers extend LLM capabilities and are set up differently depending on your chat interface. Key servers include:\n"
    + "\n"
    + "1. Perplexity: Discovers context newer than the LLM's training cutoff. \n"
    + "   Install with: claude mcp add perplexity-ask npx -- -y @modelcontextprotocol/server-perplexity-ask -e PERPLEXITY_API_KEY=YOUR_KEY\n"
    + "\n"
    + "2. Firecrawl: Gets website text content.\n"
    + "   Install with: claude mcp add mcp-server-firecrawl npx -- -y firecrawl-mcp\n"
    + "\n"
    + "3. AgentQL: Advanced web scraping that extracts data even as websites change.\n"
    + "   Install with: claude mcp add agentql npx -- -y agentql-mcp -e AGENTQL_API_KEY=YOUR_KEY\n"
    + "\n"
    + "4. Repomix: Navigates GitHub repositories with intelligent token management.\n"
    + "   Install with: claude mcp add repomix npx -- -y repomix --mcp\n"
    + "\n"
    + "You can test MCP tools at https://mcp.so/ or https://glama.ai before installing."

  const NoteTakingContent: string :=
    "Effective note-taking is crucial for knowledge management. Key recommendations:\n"
    + "\n"
    + "1. Use an Obsidian-compatible format with entity linking ([[entity]]).\n"
    + "\n"
    + "2. Create hierarchical structure and connections between notes.\n"
    + "\n"
    + "3. Daily notes: Write bulleted lists, linking to entities with [[project]] syntax.\n"
    + "\n"
    + "4. Search capabilities: Filter by entity, text content, or date range.\n"
    + "\n"
    + "5. LLM integration: Use AI to help find specific information.\n"
    + "\n"
    + "Future bet: The Obsidian format of entity-linked pages will become a standard interface for knowledge.\n"
    + "\n"
    + "For organizations:\n"
    + "- Capture important meetings for perfect recall\n"
    + "- Save and centralize meeting transcripts\n"
    + "- Use integrations (like Zapier) to automate connections\n"
    + "- Make knowledge available via LLM interfaces"

  const KnowledgeArchitectureContent: string :=
    "The proposed knowledge architecture has six layers:\n"
    + "\n"
    + "1. Knowledge Acquisition Layer: Raw input, query refinement, information extraction, and structural formalization.\n"
    + "\n"
    + "2. Knowledge Organization Layer: Entity formation, relationship discovery, temporal contextualization, and pattern recognition.\n"
    + "\n"
    + "3. Cognitive Processing Layer: Reasoning engine, inference generation, hypothesis formation, and fact validation.\n"
    + "\n"
    + "4. Knowledge Synthesis Layer: Knowledge graph, memory indexing, semantic network, and conceptual mapping.\n"
    + "\n"
    + "5. Application Layer: Query response, insight generation, recommendation system, and explanatory interface.\n"
    + "\n"
    + "6. Feedback & Evolution Layer: User feedback, self-evaluation, confidence scoring, and knowledge refinement.\n"
    + "\n"
    + "This architecture supports a system that progressively learns and improves over time."


  /** The `content` of the topic at position `k` of the table (positions
      past the last one do not occur). */
  function TopicText(k: nat): string {
    if k == 0 then ClaudeCodeContent
    else if k == 1 then McpServersContent
    else if k == 2 then NoteTakingContent
    else KnowledgeArchitectureContent
  }

  /** The text the server sends back for a reply. */
  function ReplyText(r: Reply): string {
    match r
    case GreetingReply => Greeting
    case TopicContent(k) => TopicText(k)
    case DefaultReply => DefaultText
  }
}
