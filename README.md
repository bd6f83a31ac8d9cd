# AI Knowledge Sharing chat interface: a verified model of its core

This project models the core of the realtime chat interface of the
AI-Knowledge-Sharing repository.

- **Session parser.** `parseSessionContent` reads a session document line by line. It keeps:
  - a YAML front matter toggle (`---`) with `title:` and `date:` lines;
  - fenced code blocks (which record MCP server installations when they sit under a server section);
  - `#` headings and `##` subheadings;
  - the body text of the current section or subsection.

  After the scan it gives each server match a canonical name and a description, and it removes duplicate topics.
- **Session queries.** These answer questions about a parsed document:
  - `getTopicInformation` tries, in this order, an exact title, a partial title, a subsection title and a body mention.
  - `getMcpServerDetails` tries the server registry, then the excerpts in server sections.
  - `getArchitectureDiagram` finds the architecture section and its diagram.
- **Chat replies.** `processMessage` of the simple chat server chooses a canned reply from a message: a greeting, one of four topic texts, or a default.
- **Event log.** The client's event log lists every event in order. Of the streamed fragments whose type ends in `delta`, it keeps only the first of each type. The log also has small per-event tests (client event, text response, response text).

Modules:

- `Text` (text.dfy) holds the JavaScript string operations the core uses, modelled on `seq<char>`:
  - ASCII `toLowerCase`;
  - `trim` over the full JavaScript whitespace set;
  - `startsWith`, `endsWith` and `includes`;
  - `split` and `join` on one separator, with both round trips;
  - `Array.find` as `FindFirst`, and `Array.filter`.
- `SessionParser` (session_parser.dfy) holds:
  - the document datatypes;
  - the per-line scan as a specification function `Step`, and its fold `Run`;
  - the imperative scan: `ParseSessionContent` loops over the lines, and `ScanLine` with its two helpers is the loop body. Each is proved equal to the specification.
- `ParserProperties` (parser_properties.dfy) holds the properties of the parse:
  - the header values;
  - code-block capture as a round trip;
  - where a subheading attaches, and the shape invariant of the sections;
  - topic de-duplication in first-seen order;
  - the server post-processing pass.
- `SessionQueries` (session_queries.dfy) holds the three query functions. Lemmas state each stage's precedence and its "first hit wins" rule, and state exactly when the lookup misses.
- `ChatReplies` (chat_replies.dfy) holds the reply selection as a `Reply` value. `ReplyText` gives the exact strings of the topics table.
- `EventLog` (event_log.dfy) holds the listing loop as a method with a dictionary and an output sequence, proved against a specification function `Shown`, plus the per-event tests.

Two details of the parser are worth noting:

- A `title:` value loses every `"`, not only surrounding quotes (sessionParser.js:45).
- `##` subheading titles join `topics`, as `#` titles do (sessionParser.js:129).

## Model

| member | source | states |
|---|---|---|
| SessionParser.ParseSessionContent | realtime-chat-interface/utils/sessionParser.js:9-164 | splitting the content at newlines and scanning every line with the loop gives the document that `Parse` (the fold of `Step`, then de-duplication and server post-processing) specifies |
| SessionParser.Parse | realtime-chat-interface/utils/sessionParser.js:9-164 | the parsed document lists each topic the scan recorded, exactly once, and has one server per match the scan found |
| SessionParser.Run | realtime-chat-interface/utils/sessionParser.js:34-137 | scanning any lines from a well-formed state ends in a well-formed state |
| SessionParser.ScanLine | realtime-chat-interface/utils/sessionParser.js:35-136 | one pass of the loop body equals the per-line transition `Step`, whose precedence is: toggle, header line, fence, code line, heading, subheading, body text |
| SessionParser.CloseCodeBlock | realtime-chat-interface/utils/sessionParser.js:62-82 | a closing fence while a block is open gives the state `Step` specifies |
| SessionParser.OpenSubheading | realtime-chat-interface/utils/sessionParser.js:107-131 | a `## ` line outside a block gives the state `Step` specifies |
| SessionParser.Step | realtime-chat-interface/utils/sessionParser.js:35-136 | every line keeps the scan state well formed: the current section is always the last section or the last subsection of the last section |
| SessionParser.ToggleFlipsHeader | realtime-chat-interface/utils/sessionParser.js:38-41 | a line that trims to `---` flips the header flag and changes nothing else, even inside a code block |
| SessionParser.HeaderLineSetsOnlyTitleAndDate | realtime-chat-interface/utils/sessionParser.js:43-50 | inside the header a `title:` line sets only the title, otherwise a `date:` line sets only the date, and any other line changes nothing |
| SessionParser.FenceOpensBlock | realtime-chat-interface/utils/sessionParser.js:53-61 | a fence with no block open opens an empty block with the trimmed language and the current section's title, or `Unknown` |
| SessionParser.FenceClosesBlock | realtime-chat-interface/utils/sessionParser.js:62-82 | a fence with a block open appends the block to the snippets, adds the server matches found, closes the block, and changes nothing else |
| SessionParser.CodeLineGoesToBlock | realtime-chat-interface/utils/sessionParser.js:87-90 | inside an open block a line is appended to the block's content with a newline, and nothing else changes |
| SessionParser.HeadingOpensSection | realtime-chat-interface/utils/sessionParser.js:93-104 | a `# ` line appends a level-1 section with the trimmed title, makes it current and records the title as a topic |
| SessionParser.SubheadingAttachesOrIsRoot | realtime-chat-interface/utils/sessionParser.js:107-131 | a `## ` line records its trimmed title as a topic and changes nothing else but the sections and cursor: under a current level-1 section it appends a subsection whose parent is that section and makes it current; otherwise it appends a level-2 section whose parent is `Root` and makes it current |
| SessionParser.SubheadingAttaches | realtime-chat-interface/utils/sessionParser.js:107-117 | under a current level-1 section, every section stays as it was except the last, which gains one subsection at the end with the trimmed title, empty text and that section's title as parent; the new subsection is current and the title is appended to the topics |
| SessionParser.SubheadingIsNotHeading | realtime-chat-interface/utils/sessionParser.js:93-107 | a `## ` line never counts as a `# ` heading, so the two heading branches do not overlap |
| SessionParser.TextGoesToCurrentSection | realtime-chat-interface/utils/sessionParser.js:134-136 | a body line is appended with a newline to the current section or subsection, and is dropped when there is none |
| SessionParser.FoundServers | realtime-chat-interface/utils/sessionParser.js:66-78 | a closed block yields one server match exactly when the current title contains `MCP` or, ignoring case, `server`, and the content names a known server; that match carries the name, the block's content and the section title |
| SessionParser.FirstServerMatch | realtime-chat-interface/utils/sessionParser.js:70 | there is no match exactly when no server name occurs in the content ignoring case; otherwise the match is the leftmost occurrence, as literally written in the content |
| SessionParser.Dedup | realtime-chat-interface/utils/sessionParser.js:161 | the de-duplicated topics have the same members as the input, contain no duplicates and are no longer |
| SessionParser.Describe | realtime-chat-interface/utils/sessionParser.js:148-156 | the description is the content of the first section whose title or content mentions the name, and `No description available` when none does |
| SessionParser.PostProcess | realtime-chat-interface/utils/sessionParser.js:140-158 | the pass keeps one entry per server match |
| ParserProperties.RunAppend | realtime-chat-interface/utils/sessionParser.js:34-137 | scanning `a + b` is scanning `a` and then `b` |
| ParserProperties.FenceIsNotToggle | realtime-chat-interface/utils/sessionParser.js:38-53 | a fence line is never a header toggle |
| ParserProperties.HeadingIsNotToggleOrFence | realtime-chat-interface/utils/sessionParser.js:38-107 | a heading line is neither a toggle nor a fence |
| ParserProperties.HeaderBlock | realtime-chat-interface/utils/sessionParser.js:43-50 | scanning a header block sets only the title and the date, to the values its lines give |
| ParserProperties.HeaderTitleIsLast | realtime-chat-interface/utils/sessionParser.js:44-45 | the title is the value of the last `title:` line of the block, and stays unchanged when the block has none |
| ParserProperties.HeaderDateIsLast | realtime-chat-interface/utils/sessionParser.js:46-47 | the date is the value of the last `date:` line of the block, and stays unchanged when the block has none |
| ParserProperties.TitleHasNoQuotes | realtime-chat-interface/utils/sessionParser.js:45 | the title holds no `"` and holds every other character of the trimmed value; a trimmed value without `"` is the title unchanged |
| ParserProperties.TitleDropsEachQuote | realtime-chat-interface/utils/sessionParser.js:45 | a `"` anywhere in the trimmed value is dropped and the texts on both sides are kept, in order, each with its own `"` removed |
| ParserProperties.QuotedTitle | realtime-chat-interface/utils/sessionParser.js:45 | a value wrapped in one pair of quotes, with none inside, gives the text between them |
| ParserProperties.ConcatLinesIsJoin | realtime-chat-interface/utils/sessionParser.js:88 | the captured block content is the lines joined by newlines, with a final newline |
| ParserProperties.CapturedLinesRoundTrip | realtime-chat-interface/utils/sessionParser.js:86-90 | splitting a block's captured content at newlines gives back its lines, followed by one empty piece |
| ParserProperties.BlockBody | realtime-chat-interface/utils/sessionParser.js:87-90 | the lines of an open block that are neither fences nor toggles are appended to its content in order, and nothing else changes |
| ParserProperties.OpenBlock | realtime-chat-interface/utils/sessionParser.js:53-90 | an opening fence followed by body lines leaves a block open whose content is exactly those lines |
| ParserProperties.CodeBlockRoundTrip | realtime-chat-interface/utils/sessionParser.js:53-90 | an opening fence, body lines and a closing fence add one snippet whose content is exactly the body lines, plus the server matches it gives, and change nothing else |
| ParserProperties.UnterminatedBlockIsDropped | realtime-chat-interface/utils/sessionParser.js:53-163 | a block that is never closed stays open and contributes nothing to the document |
| ParserProperties.AttachAfterHeading | realtime-chat-interface/utils/sessionParser.js:93-131 | a heading followed by a subheading gives one level-1 section holding that subsection, whose parent is the heading's title |
| ParserProperties.SecondSubheadingIsRoot | realtime-chat-interface/utils/sessionParser.js:107-131 | a second subheading right after a subsection becomes a root level-2 section, because the current section is then the subsection |
| ParserProperties.SubheadingWithoutParentIsRoot | realtime-chat-interface/utils/sessionParser.js:118-128 | a subheading without a current level-1 section appends a level-2 section whose parent is `Root` |
| ParserProperties.TextBeforeHeadingIsDropped | realtime-chat-interface/utils/sessionParser.js:134-136 | body lines before any heading change nothing |
| ParserProperties.StepCoherent | realtime-chat-interface/utils/sessionParser.js:93-131 | every line preserves the invariant: the topics so far are the titles of the sections and subsections in document order; every subsection's parent is its section's title; every server match is named |
| ParserProperties.RunCoherent | realtime-chat-interface/utils/sessionParser.js:34-137 | the scan of any lines preserves that invariant |
| ParserProperties.DedupFirstSeenOrder | realtime-chat-interface/utils/sessionParser.js:161 | de-duplication keeps the first-seen order |
| ParserProperties.ParsedTopics | realtime-chat-interface/utils/sessionParser.js:93-161 | the document's topics are the heading titles in first-seen order without duplicates: the same members, no longer than the list of headings |
| ParserProperties.ParsedSectionsWellShaped | realtime-chat-interface/utils/sessionParser.js:95-127 | every section is level 1 with no parent, or level 2 with parent `Root` and no subsections; every subsection points to its section's title |
| ParserProperties.CapitalizedServerName | realtime-chat-interface/utils/sessionParser.js:145 | a matched server name, once capitalized, is one of `Perplexity`, `Firecrawl`, `Agentql`, `Repomix` |
| ParserProperties.ParsedServers | realtime-chat-interface/utils/sessionParser.js:140-158 | there is one server per match in closure order, each with its canonical name, its installation code and section unchanged, and the description of the first section mentioning it |
| SessionQueries.Summary | realtime-chat-interface/utils/sessionParser.js:187 | a subsection summary is the first 100 characters of the content (or all of it) followed by `...` |
| SessionQueries.TopicInformation | realtime-chat-interface/utils/sessionParser.js:172-271 | a section answer is titled by a section whose title mentions the topic ignoring case; a not-found answer repeats the topic and suggests a prefix of the topics of at most five |
| SessionQueries.TopicByExactTitle | realtime-chat-interface/utils/sessionParser.js:172-190 | when some section's title equals the query ignoring case, the answer is the first such section with summarized subsections |
| SessionQueries.TopicByPartialTitle | realtime-chat-interface/utils/sessionParser.js:192-206 | with no exact title, the answer is the first section whose title contains the query |
| SessionQueries.ExactTitleMentions | realtime-chat-interface/utils/sessionParser.js:177-195 | an exact title match is also a partial one, so the exact stage only decides which section wins |
| SessionQueries.TopicFallsThrough | realtime-chat-interface/utils/sessionParser.js:208-270 | with no title match, a subsection-title hit beats a body hit, and a body hit beats the not-found answer |
| SessionQueries.SubsectionHitAt | realtime-chat-interface/utils/sessionParser.js:209-223 | the subsection stage answers with the first matching subsection of the first section that has one, with that section as parent topic |
| SessionQueries.SubsectionHitNone | realtime-chat-interface/utils/sessionParser.js:209-223 | the subsection stage misses exactly when no subsection title contains the query |
| SessionQueries.ContentHitAt | realtime-chat-interface/utils/sessionParser.js:226-262 | the body stage answers for the first section whose own body or some subsection body mentions the query, and the answer is that section's body answer |
| SessionQueries.ContentAnswerFromBody | realtime-chat-interface/utils/sessionParser.js:227-240 | a section whose own body mentions the query answers with its title, the lines of its body that mention the query, and its title as the full section, with no subsection |
| SessionQueries.ContentAnswerFromSubsection | realtime-chat-interface/utils/sessionParser.js:242-261 | a section whose own body does not mention the query answers from its first subsection whose body does: that subsection's title, its matching lines, the section's title as the full section and the subsection's title |
| SessionQueries.ContentHitFromSubsection | realtime-chat-interface/utils/sessionParser.js:226-262 | when the first section with a mention has none in its own body, the body stage answers from that section's first mentioning subsection |
| SessionQueries.ContentHitNone | realtime-chat-interface/utils/sessionParser.js:226-262 | the body stage misses exactly when no body mentions the query |
| SessionQueries.ContentAnswerHasMatchingLine | realtime-chat-interface/utils/sessionParser.js:227-236 | a body answer's content is made of the lines that mention the query, and at least one line does |
| SessionQueries.RelevantLinesAreMatchingLines | realtime-chat-interface/utils/sessionParser.js:229-236 | splitting the joined relevant lines gives back exactly the lines that mention the query |
| SessionQueries.TopicNotFound | realtime-chat-interface/utils/sessionParser.js:264-270 | the answer is not-found exactly when no title, subsection title or body mentions the query; it then carries the query and the first at most five topics |
| SessionQueries.TopicCaseInsensitive | realtime-chat-interface/utils/sessionParser.js:174 | two queries equal ignoring case get the same finding |
| SessionQueries.ServerByName | realtime-chat-interface/utils/sessionParser.js:282-293 | the first registry entry whose name contains the query ignoring case is returned with its installation code and description verbatim |
| SessionQueries.McpServerDetails | realtime-chat-interface/utils/sessionParser.js:279-342 | every answer that is not a registry entry carries the query as its name |
| SessionQueries.UnknownServerMeansNoName | realtime-chat-interface/utils/sessionParser.js:282-293 | a registry answer is given exactly when some registry name contains the query |
| SessionQueries.ServerBySection | realtime-chat-interface/utils/sessionParser.js:295-334 | with no registry name matching, the answer is the section answer of the first server-titled section that mentions the query in its body or in a subsection body |
| SessionQueries.SectionServerHitFromSubsection | realtime-chat-interface/utils/sessionParser.js:320-332 | a server section none of whose body lines mentions the query answers from its first subsection whose body does, giving the query as name, that whole body, the section's title and the subsection's title |
| SessionQueries.SectionServerHitNothing | realtime-chat-interface/utils/sessionParser.js:298-334 | a server section in which neither a body line nor a subsection body mentions the query gives no answer, and the search moves on |
| SessionQueries.ServerBySubsection | realtime-chat-interface/utils/sessionParser.js:295-334 | with no registry name matching, when the first answering server section has no mentioning body line, the answer is its first mentioning subsection, whole |
| SessionQueries.ServerSectionHitAt | realtime-chat-interface/utils/sessionParser.js:296-334 | the section stage answers for the first section that can answer |
| SessionQueries.ServerSectionHitNone | realtime-chat-interface/utils/sessionParser.js:296-334 | the section stage misses exactly when no section can answer |
| SessionQueries.SectionMentionGivesExcerpt | realtime-chat-interface/utils/sessionParser.js:300-317 | a server section whose body mentions the query answers with lines starting at the first mentioning line, at most ten of them, with the limited-information note |
| SessionQueries.ExcerptLines | realtime-chat-interface/utils/sessionParser.js:309 | an excerpt is between one and ten consecutive lines of the body, from the start line on |
| SessionQueries.SectionSearch | realtime-chat-interface/utils/sessionParser.js:295-341 | every answer after the registry stage carries the query as its name |
| SessionQueries.ServerUnknown | realtime-chat-interface/utils/sessionParser.js:336-341 | the answer is unknown-server exactly when neither the registry nor any section answers; it then lists all registry names in order |
| SessionQueries.DiagramFromSection | realtime-chat-interface/utils/sessionParser.js:350-372 | for the first architecture section, the diagram is the first snippet under that section's title that is `mermaid`, or any snippet there when the section mentions `mermaid(` |
| SessionQueries.ArchitectureDiagram | realtime-chat-interface/utils/sessionParser.js:349-398 | the answer comes from an architecture section exactly when the document has one, and then bears that section's title; otherwise it bears the title `Architecture Diagram` |
| SessionQueries.MermaidMentionTakesAnyBlock | realtime-chat-interface/utils/sessionParser.js:359-364 | when the section mentions `mermaid(`, the first snippet under its title is the diagram, whatever its language |
| SessionQueries.DescriptionFromSection | realtime-chat-interface/utils/sessionParser.js:374-378 | an architecture section without such a snippet gives its description and the no-code note |
| SessionQueries.DiagramWithoutSection | realtime-chat-interface/utils/sessionParser.js:381-397 | with no architecture section, the first `mermaid` or `flowchart` snippet is the diagram; otherwise the fixed not-found description is returned |
| SessionQueries.DiagramCodeIsRecorded | realtime-chat-interface/utils/sessionParser.js:349-397 | diagram code always comes from a recorded snippet, under the section's title or one that looks like a diagram; a section-less answer is given exactly when no architecture section exists |
| ChatReplies.ProcessMessage | realtime-chat-interface/simple-interface.js:275-307 | the reply is the greeting exactly when the lowered message contains `hello`, `hi` or `hey`; a topic reply always names an entry of the table |
| ChatReplies.TopicByName | realtime-chat-interface/simple-interface.js:283-287 | without a greeting, the first topic in table order whose lowered name the message contains is answered |
| ChatReplies.TopicReply | realtime-chat-interface/simple-interface.js:283-306 | the replies after the greeting check are never the greeting, and a topic reply names a position of the table |
| ChatReplies.ReplyText | realtime-chat-interface/simple-interface.js:200-306 | the text sent for a reply: the greeting, the `content` of the topic at that position of the table, or the default text |
| ChatReplies.TermsAfterTopics | realtime-chat-interface/simple-interface.js:289-303 | without a greeting or a topic name, a server name gives the MCP Servers topic, and otherwise a note term gives the Note Taking topic |
| ChatReplies.DefaultWhenNothingMatches | realtime-chat-interface/simple-interface.js:305-306 | the default reply is given exactly when no greeting, topic name, server name or note term occurs |
| ChatReplies.CaseInsensitive | realtime-chat-interface/simple-interface.js:277 | the reply depends only on the lowered message |
| ChatReplies.ClaudeCodeKey | realtime-chat-interface/simple-interface.js:201 | the first topic key lowers to `claude code` |
| ChatReplies.McpServersKey | realtime-chat-interface/simple-interface.js:217 | the second topic key lowers to `mcp servers` |
| ChatReplies.NoteTakingKey | realtime-chat-interface/simple-interface.js:234 | the third topic key lowers to `note taking` |
| ChatReplies.KnowledgeArchitectureKey | realtime-chat-interface/simple-interface.js:255 | the fourth topic key lowers to `knowledge architecture` |
| ChatReplies.NoteTakingWordIsShadowed | realtime-chat-interface/simple-interface.js:283-303 | a message containing `note taking` is answered by the topic loop, so that note term never decides a reply |
| ChatReplies.HiInArchitecture | realtime-chat-interface/simple-interface.js:255-279 | the lowered topic name `knowledge architecture` contains `hi` |
| ChatReplies.ArchitectureNameGreets | realtime-chat-interface/simple-interface.js:279-287 | every message naming the Knowledge Architecture topic contains a greeting word |
| ChatReplies.ArchitectureNeverAnswered | realtime-chat-interface/simple-interface.js:275-307 | no message gets the Knowledge Architecture content |
| ChatReplies.ArchitectureQuestionGreets | realtime-chat-interface/simple-interface.js:279-281 | the message `Knowledge Architecture` gets the greeting |
| ChatReplies.ProcessMessageByWord | realtime-chat-interface/simple-interface.js:275-307 | the corrected reply greets exactly when a greeting occurs as a whole word, and otherwise keeps the same order of tests |
| ChatReplies.ByWordAgrees | realtime-chat-interface/simple-interface.js:279-307 | the corrected reply differs from the original only when the original greets |
| ChatReplies.NoGreetingWordInArchitecture | realtime-chat-interface/simple-interface.js:255-279 | `knowledge architecture` holds no greeting as a whole word |
| ChatReplies.ByWordAnswersArchitecture | realtime-chat-interface/simple-interface.js:255-287 | under the corrected rule the message `Knowledge Architecture` gets the Knowledge Architecture content |
| ChatReplies.ByWordGreets | realtime-chat-interface/simple-interface.js:279-281 | under the corrected rule the message `Hi` is still greeted |
| EventLog.Render | realtime-chat-interface/client/components/EventLog.jsx:93-120 | an empty log renders the placeholder; otherwise the loop over the events, with its dictionary of delta types seen, lists exactly `Shown(events)` |
| EventLog.NonDeltaEventsKept | realtime-chat-interface/client/components/EventLog.jsx:97-110 | the listed events that are not deltas are exactly those of the input, in input order |
| EventLog.FirstDeltaOnly | realtime-chat-interface/client/components/EventLog.jsx:98-105 | for each type ending in `delta`, the listed events of that type are the first such event of the input, or none |
| EventLog.SeenIsOfType | realtime-chat-interface/client/components/EventLog.jsx:98-104 | a delta type is in the dictionary exactly when some earlier event has that type |
| EventLog.ShownIsSubsequence | realtime-chat-interface/client/components/EventLog.jsx:94-110 | the list is an order-preserving subsequence of the events, so it is never longer |
| EventLog.EmptyLogAwaits | realtime-chat-interface/client/components/EventLog.jsx:114-117 | an empty log lists nothing, and a non-empty one lists at least its first event, first |
| EventLog.TextsOf | realtime-chat-interface/client/components/EventLog.jsx:20-22 | the texts of the text parts are non-empty, and there is one exactly when some output part is a text part |
| EventLog.TextsOfAppend | realtime-chat-interface/client/components/EventLog.jsx:20-22 | the texts of two runs of output parts are the texts of the first followed by those of the second |
| EventLog.TextsOfOne | realtime-chat-interface/client/components/EventLog.jsx:21-22 | one output part gives its text exactly when it is a text part, and nothing otherwise |
| EventLog.TextResponseHasTexts | realtime-chat-interface/client/components/EventLog.jsx:12-22 | an event is a text response exactly when it is `response.done` and its list of texts is not empty |
| EventLog.ClientByEventId | realtime-chat-interface/client/components/EventLog.jsx:9 | an event with no id, or with an id starting `event_`, is not a client event; every other non-empty id is |
| EventLog.Shown | realtime-chat-interface/client/components/EventLog.jsx:97-110 | the list is never longer than the events |
| EventLog.ResponseText | realtime-chat-interface/client/components/EventLog.jsx:12-24 | there is a response text exactly when the event is `response.done` with a non-empty text part |
| EventLog.ResponseTextParts | realtime-chat-interface/client/components/EventLog.jsx:16-24 | the text of a text response is non-empty; when no part holds a space, splitting it at spaces gives the parts back in order |
| Text.ToLower | realtime-chat-interface/utils/sessionParser.js:174 | lowering keeps the length and lowers each character |
| Text.ToLowerIdempotent | realtime-chat-interface/simple-interface.js:277 | lowering twice is lowering once |
| Text.LowerOfCapitalize | realtime-chat-interface/utils/sessionParser.js:145-150 | a capitalized name lowers to the lowered original, so the description search finds the same sections |
| Text.Capitalize | realtime-chat-interface/utils/sessionParser.js:145 | capitalizing upper-cases the first character, lowers the rest, and keeps the length |
| Text.Trim | realtime-chat-interface/utils/sessionParser.js:38 | the trimmed text is a slice of the input with only whitespace cut on both sides, and it neither starts nor ends with whitespace |
| Text.RemoveChar | realtime-chat-interface/utils/sessionParser.js:45 | removing a character leaves every other character and none of that one |
| Text.RemoveCharAppend | realtime-chat-interface/utils/sessionParser.js:45 | removing a character from a concatenation is removing it from each part and concatenating |
| Text.RemoveCharDropsOne | realtime-chat-interface/utils/sessionParser.js:45 | one occurrence of the character between two texts disappears, and both texts keep their other characters |
| Text.RemoveCharAbsent | realtime-chat-interface/utils/sessionParser.js:45 | removing a character the text does not hold leaves the text as it is |
| Text.Split | realtime-chat-interface/utils/sessionParser.js:14 | splitting gives at least one piece, and no piece holds the separator |
| Text.JoinSplit | realtime-chat-interface/utils/sessionParser.js:229-236 | joining the pieces of a split with the separator gives back the text |
| Text.SplitJoin | realtime-chat-interface/utils/sessionParser.js:236 | splitting parts joined with a separator none of them holds gives back the parts |
| Text.FindFirst | realtime-chat-interface/utils/sessionParser.js:177 | `find` gives the first element satisfying the test, and nothing exactly when none does |
| Text.FilterAppend | realtime-chat-interface/utils/sessionParser.js:230 | filtering a concatenation is concatenating the filtered parts |
| Text.Take | realtime-chat-interface/utils/sessionParser.js:269 | `slice(0, n)` gives the first `n` elements, or all of them when there are fewer |

## Left out

- Reading the session file is left out: the parser takes the file content as a string.
- `realtime-chat-interface/utils/sessionContent.js` is not part of this model. It does file I/O and keeps a module-global memo, and its accessors return constant strings.
- HTTP routing, the generated HTML page and the calls to external APIs are not modelled. The same goes for `server.js` and the speech helper in `speechUtil.js`.
- React rendering is left out. EventLog.Render returns the events to list, or the placeholder, instead of JSX elements. The `key` and `timestamp` props are not modelled.
- The other client components (`App.jsx`, `ToolPanel.jsx`, `SessionControls.jsx`, `Button.jsx`) and the scripts are not modelled.
- The field `result.currentSection` is always `null` and is never read, so it is not modelled. The parser's `currentSection` reference is modelled by a cursor that says whether the current section is the last section or the last subsection of the last section.
- Text.ToLower: lowers ASCII letters only, not full Unicode `toLowerCase`. The fixed keywords the core compares against are ASCII, but queries, titles, contents and server names are compared with the same fold, so non-ASCII letters in them compare case-sensitively in the model: JavaScript treats `Überblick` and `überblick` as equal ignoring case, the model does not.
- ChatReplies.ProcessMessage: returns which reply is chosen, as a `Reply`. `ReplyText` gives the exact string the server sends for it.
- Text: strings are sequences of Unicode scalar values, not of UTF-16 code units. SessionQueries.Summary therefore cuts after 100 scalars, where `substring(0, 100)` counts code units and can split a surrogate pair; the two agree on text without characters outside the Basic Multilingual Plane.
- ChatReplies.ReplyText: has no contract of its own. Its value is the literal text of the table, and the reply choice is stated on `Reply`.
- Event fields other than `event_id`, `type` and `response.output` are not modelled. An absent or empty `event_id`, or an absent or empty `text`, stands for a JavaScript falsy value.

## Findings

| source | as written | input that shows it | evidently intended | confidence | as-written member | corrected member |
|---|---|---|---|---|---|---|
| realtime-chat-interface/simple-interface.js:279 | the greeting test is a substring test, so `hi` matches inside `knowledge architecture` and the greeting wins before the topic loop | the message `Knowledge Architecture` gets the greeting, and no message can ever get the Knowledge Architecture content | greet only when a greeting occurs as a whole word, so the fourth topic can be answered | not executed | ChatReplies.ArchitectureNeverAnswered | ChatReplies.ByWordAnswersArchitecture |
