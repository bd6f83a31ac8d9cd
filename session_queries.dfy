/**
 * The lookups the chat assistant runs over a parsed session document:
 * information about a topic (`getTopicInformation`), details of an MCP
 * server (`getMcpServerDetails`) and the architecture diagram
 * (`getArchitectureDiagram`).
 *
 * Each is a cascade of searches; the first that finds something decides
 * the answer. Every search is "the first one in document order", and the
 * contracts say so.
 */
module SessionQueries {
  import opened Text
  import opened SessionParser

  function Min(a: int, b: int): int {
    if a <= b then a else b
  }

  /** Case-insensitive mention: the lowered text contains `q`, which the
      callers have already lowered. */
  predicate Mentions(text: string, q: string) {
    Contains(ToLower(text), q)
  }

  /** `text.split('\n').filter(line => line.toLowerCase().includes(q)).join('\n')`. */
  function RelevantLines(text: string, q: string): string {
    Join(Filter(Split(text, '\n'), line => Mentions(line, q)), "\n")
  }

  /** The excerpt consists of exactly the matching lines, in order. */
  lemma RelevantLinesAreMatchingLines(text: string, q: string)
    ensures var m := Filter(Split(text, '\n'), line => Mentions(line, q));
            m != [] ==> Split(RelevantLines(text, q), '\n') == m
    ensures Filter(Split(text, '\n'), line => Mentions(line, q)) == [] ==> RelevantLines(text, q) == ""
  {
    var m := Filter(Split(text, '\n'), line => Mentions(line, q));
    if m != [] {
      forall k | 0 <= k < |m| ensures '\n' !in m[k] {
        assert m[k] in Split(text, '\n');
      }
      SplitJoin(m, '\n');
    }
  }

  /** When the text mentions a name that has no line break, some line of the
      text mentions it: a mention is never lost by going line by line. */
  lemma MentionInSomeLine(text: string, q: string)
    requires Mentions(text, q) && '\n' !in q
    ensures exists k :: 0 <= k < |Split(text, '\n')| && Mentions(Split(text, '\n')[k], q)
  {
    ContainsInSomePiece(ToLower(text), q, '\n');
    LowerLines(text);
  }

  // ---------------------------------------------------------------------
  // getTopicInformation

  datatype SubsectionSummary = SubsectionSummary(title: string, summary: string)

  datatype TopicInfo =
    | SectionInfo(title: string, content: string, subsections: seq<SubsectionSummary>)
    | SubsectionInfo(title: string, content: string, parentTopic: string)
    | ContentInfo(title: string, content: string, fullSection: string, subsection: Option<string>)
    | NoTopicInfo(title: string, content: string, suggestedTopics: seq<string>)

  /** A subsection's entry: its title and at most the first 100 characters
      of its text, followed by "...". */
  function Summary(sub: Subsection): (r: SubsectionSummary)
    ensures r.title == sub.title
    ensures |r.summary| == Min(|sub.content|, 100) + 3
    ensures StartsWith(sub.content, r.summary[..|r.summary| - 3]) && EndsWith(r.summary, "...")
  {
    var head := Take(sub.content, 100);
    assert (head + "...")[..|head|] == head;
    assert (head + "...")[|head|..] == "...";
    SubsectionSummary(sub.title, head + "...")
  }

  function Summaries(subs: seq<Subsection>): (r: seq<SubsectionSummary>)
    ensures |r| == |subs| && forall j :: 0 <= j < |subs| ==> r[j] == Summary(subs[j])
  {
    seq(|subs|, j requires 0 <= j < |subs| => Summary(subs[j]))
  }

  function SectionAnswer(sec: Section): TopicInfo {
    SectionInfo(sec.title, sec.content, Summaries(sec.subsections))
  }

  function NotFoundMessage(topic: string): string {
    "No information found about \"" + topic + "\" in the session content."
  }

  predicate TitleIs(sec: Section, q: string) {
    ToLower(sec.title) == q
  }

  predicate TitleMentions(sec: Section, q: string) {
    Mentions(sec.title, q)
  }

  predicate HasSubtitleMention(sec: Section, q: string) {
    exists j :: 0 <= j < |sec.subsections| && Mentions(sec.subsections[j].title, q)
  }

  /** What the content search finds in a section: its own text first,
      then the text of its subsections. */
  predicate HasContentMention(sec: Section, q: string) {
    Mentions(sec.content, q) || exists j :: 0 <= j < |sec.subsections| && Mentions(sec.subsections[j].content, q)
  }

  /** The subsection search: the first section with a subsection whose title
      mentions `q`, and the first such subsection in it. */
  function SubsectionHit(sections: seq<Section>, q: string): (r: Option<TopicInfo>)
    ensures r.Some? ==> r.value.SubsectionInfo?
    decreases |sections|
  {
    if sections == [] then None
    else
      var sec := sections[0];
      match FindFirst(sec.subsections, (sub: Subsection) => Mentions(sub.title, q))
      case Some(j) => Some(SubsectionInfo(sec.subsections[j].title, sec.subsections[j].content, sec.title))
      case None => SubsectionHit(sections[1..], q)
  }

  /** One step of the subsection search. */
  lemma SubsectionHitHead(sections: seq<Section>, q: string)
    requires sections != []
    ensures !HasSubtitleMention(sections[0], q) ==> SubsectionHit(sections, q) == SubsectionHit(sections[1..], q)
    ensures HasSubtitleMention(sections[0], q) ==> SubsectionHit(sections, q).Some?
  {
    var subs := sections[0].subsections;
    if HasSubtitleMention(sections[0], q) {
      var j :| 0 <= j < |subs| && Mentions(subs[j].title, q);
      assert FindFirst(subs, (sub: Subsection) => Mentions(sub.title, q)).Some?;
    }
  }

  /** The subsection search finds nothing exactly when no subsection title
      mentions `q`. */
  lemma {:induction false} SubsectionHitNone(sections: seq<Section>, q: string)
    ensures SubsectionHit(sections, q).None? <==> forall i :: 0 <= i < |sections| ==> !HasSubtitleMention(sections[i], q)
    decreases |sections|
  {
    if sections != [] {
      SubsectionHitNone(sections[1..], q);
      SubsectionHitHead(sections, q);
      assert forall i :: 1 <= i < |sections| ==> sections[1..][i - 1] == sections[i];
    }
  }

  /** Otherwise it answers with the first such subsection of the first
      section that has one. */
  lemma {:induction false} SubsectionHitAt(sections: seq<Section>, q: string, i: int, j: int)
    requires FirstAt(sections, sec => HasSubtitleMention(sec, q), i)
    requires FirstAt(sections[i].subsections, (sub: Subsection) => Mentions(sub.title, q), j)
    ensures SubsectionHit(sections, q)
            == Some(SubsectionInfo(sections[i].subsections[j].title, sections[i].subsections[j].content, sections[i].title))
    decreases i
  {
    SubsectionHitHead(sections, q);
    if i == 0 {
      FirstAtIsFindFirst(sections[0].subsections, (sub: Subsection) => Mentions(sub.title, q), j);
    } else {
      var rest := sections[1..];
      assert forall k :: 0 <= k < i - 1 ==> rest[k] == sections[k + 1];
      assert FirstAt(rest, sec => HasSubtitleMention(sec, q), i - 1);
      SubsectionHitAt(rest, q, i - 1, j);
    }
  }

  /** The answer from the text of one section that mentions `q`. */
  function ContentAnswer(sec: Section, q: string): TopicInfo
    requires HasContentMention(sec, q)
  {
    if Mentions(sec.content, q) then ContentInfo(sec.title, RelevantLines(sec.content, q), sec.title, None)
    else
      match FindFirst(sec.subsections, (sub: Subsection) => Mentions(sub.content, q))
      case Some(j) =>
        var sub := sec.subsections[j];
        ContentInfo(sub.title, RelevantLines(sub.content, q), sec.title, Some(sub.title))
      case None => assert false; NoTopicInfo("", "", [])
  }

  /** A section whose own text mentions `q` answers with its matching
      lines, as the whole section. */
  lemma ContentAnswerFromBody(sec: Section, q: string)
    requires Mentions(sec.content, q)
    ensures HasContentMention(sec, q)
    ensures ContentAnswer(sec, q) == ContentInfo(sec.title, RelevantLines(sec.content, q), sec.title, None)
  {
  }

  /** A section whose own text does not mention `q` answers from the first
      subsection whose text does: that subsection's matching lines, under
      its title, with the section as the full section. */
  lemma ContentAnswerFromSubsection(sec: Section, q: string, j: int)
    requires !Mentions(sec.content, q)
    requires FirstAt(sec.subsections, (sub: Subsection) => Mentions(sub.content, q), j)
    ensures HasContentMention(sec, q)
    ensures var sub := sec.subsections[j];
            ContentAnswer(sec, q) == ContentInfo(sub.title, RelevantLines(sub.content, q), sec.title, Some(sub.title))
  {
    FirstAtIsFindFirst(sec.subsections, (sub: Subsection) => Mentions(sub.content, q), j);
  }

  /** The content search: sections in order, each one's own text before its
      subsections' text. */
  function ContentHit(sections: seq<Section>, q: string): (r: Option<TopicInfo>)
    ensures r.Some? ==> r.value.ContentInfo?
    decreases |sections|
  {
    if sections == [] then None
    else
      var sec := sections[0];
      if Mentions(sec.content, q) then Some(ContentInfo(sec.title, RelevantLines(sec.content, q), sec.title, None))
      else
        match FindFirst(sec.subsections, (sub: Subsection) => Mentions(sub.content, q))
        case Some(j) =>
          var sub := sec.subsections[j];
          Some(ContentInfo(sub.title, RelevantLines(sub.content, q), sec.title, Some(sub.title)))
        case None => ContentHit(sections[1..], q)
  }

  /** The content search finds nothing exactly when no text mentions `q`. */
  lemma {:induction false} ContentHitNone(sections: seq<Section>, q: string)
    ensures ContentHit(sections, q).None? <==> forall i :: 0 <= i < |sections| ==> !HasContentMention(sections[i], q)
    decreases |sections|
  {
    if sections != [] {
      ContentHitNone(sections[1..], q);
      ContentHitHead(sections, q);
      assert forall i :: 1 <= i < |sections| ==> sections[1..][i - 1] == sections[i];
    }
  }

  /** Otherwise it answers from the first section whose own text or
      subsection text does. */
  lemma {:induction false} ContentHitAt(sections: seq<Section>, q: string, i: int)
    requires FirstAt(sections, sec => HasContentMention(sec, q), i)
    ensures ContentHit(sections, q) == Some(ContentAnswer(sections[i], q))
    decreases i
  {
    ContentHitHead(sections, q);
    if i > 0 {
      var rest := sections[1..];
      assert forall k :: 0 <= k < i - 1 ==> rest[k] == sections[k + 1];
      assert FirstAt(rest, sec => HasContentMention(sec, q), i - 1);
      ContentHitAt(rest, q, i - 1);
    }
  }

  /** The content search answering from a subsection: the first section
      with any mention has none in its own text, so the first subsection
      whose text mentions `q` answers with its matching lines. */
  lemma ContentHitFromSubsection(sections: seq<Section>, q: string, i: int, j: int)
    requires FirstAt(sections, sec => HasContentMention(sec, q), i)
    requires !Mentions(sections[i].content, q)
    requires FirstAt(sections[i].subsections, (sub: Subsection) => Mentions(sub.content, q), j)
    ensures var sec := sections[i];
            var sub := sec.subsections[j];
            ContentHit(sections, q) == Some(ContentInfo(sub.title, RelevantLines(sub.content, q), sec.title, Some(sub.title)))
  {
    ContentHitAt(sections, q, i);
    ContentAnswerFromSubsection(sections[i], q, j);
  }

  /** One step of the content search: the head section answers when it
      mentions `q`, and is skipped otherwise. */
  lemma ContentHitHead(sections: seq<Section>, q: string)
    requires sections != []
    ensures HasContentMention(sections[0], q) ==> ContentHit(sections, q) == Some(ContentAnswer(sections[0], q))
    ensures !HasContentMention(sections[0], q) ==> ContentHit(sections, q) == ContentHit(sections[1..], q)
  {
  }

  /** `getTopicInformation(parsedContent, topic)`: the first section whose
      title is the topic (ignoring case), else the first whose title
      mentions it. A section answer is titled by a section whose title
      mentions the topic ignoring case; the not-found answer repeats the
      topic and suggests at most the first five topics. */
  function TopicInformation(doc: Document, topic: string): (r: TopicInfo)
    ensures r.SectionInfo? ==> exists i :: 0 <= i < |doc.sections| && doc.sections[i].title == r.title
                                           && TitleMentions(doc.sections[i], ToLower(topic))
    ensures r.NoTopicInfo? ==> r.title == topic && |r.suggestedTopics| <= 5
                               && r.suggestedTopics <= doc.topics
  {
    var q := ToLower(topic);
    match FindFirst(doc.sections, sec => TitleIs(sec, q))
    case Some(i) =>
      ExactTitleMentions(doc.sections[i], q);
      SectionAnswer(doc.sections[i])
    case None => PartialTitleSearch(doc, topic)
  }

  /** The search by a title that mentions the topic. */
  function PartialTitleSearch(doc: Document, topic: string): (r: TopicInfo)
    ensures r.SectionInfo? ==> exists i :: 0 <= i < |doc.sections| && doc.sections[i].title == r.title
                                           && TitleMentions(doc.sections[i], ToLower(topic))
    ensures r.NoTopicInfo? ==> r.title == topic && |r.suggestedTopics| <= 5
                               && r.suggestedTopics <= doc.topics
  {
    var q := ToLower(topic);
    match FindFirst(doc.sections, sec => TitleMentions(sec, q))
    case Some(i) => SectionAnswer(doc.sections[i])
    case None => DeepSearch(doc, topic)
  }

  /** The searches below the section titles: subsection titles, then text. */
  function DeepSearch(doc: Document, topic: string): (r: TopicInfo)
    ensures !r.SectionInfo?
    ensures r.NoTopicInfo? ==> r.title == topic && |r.suggestedTopics| <= 5
                               && r.suggestedTopics <= doc.topics
  {
    var q := ToLower(topic);
    match SubsectionHit(doc.sections, q)
    case Some(a) => a
    case None =>
      match ContentHit(doc.sections, q)
      case Some(a) => a
      case None => NoTopicInfo(topic, NotFoundMessage(topic), Take(doc.topics, 5))
  }

  /** The first section whose title is the topic, ignoring case, answers. */
  lemma TopicByExactTitle(doc: Document, topic: string, i: int)
    requires FirstAt(doc.sections, sec => TitleIs(sec, ToLower(topic)), i)
    ensures TopicInformation(doc, topic) == SectionAnswer(doc.sections[i])
  {
    FirstAtIsFindFirst(doc.sections, sec => TitleIs(sec, ToLower(topic)), i);
  }

  /** With no exact title, the first title that mentions the topic answers. */
  lemma TopicByPartialTitle(doc: Document, topic: string, i: int)
    requires forall j :: 0 <= j < |doc.sections| ==> !TitleIs(doc.sections[j], ToLower(topic))
    requires FirstAt(doc.sections, sec => TitleMentions(sec, ToLower(topic)), i)
    ensures TopicInformation(doc, topic) == SectionAnswer(doc.sections[i])
  {
    var q := ToLower(topic);
    assert FindFirst(doc.sections, sec => TitleIs(sec, q)) == None;
    FirstAtIsFindFirst(doc.sections, sec => TitleMentions(sec, q), i);
  }

  /** An exact title is only ever a special case of a mention. */
  lemma ExactTitleMentions(sec: Section, q: string)
    requires TitleIs(sec, q)
    ensures TitleMentions(sec, q)
  {
    assert MatchAt(ToLower(sec.title), q, 0);
  }

  /** With no title mentioning the topic, the subsection titles are searched,
      then the text; when nothing mentions it at all the answer repeats the
      topic, says nothing was found and suggests up to five topics. */
  lemma TopicFallsThrough(doc: Document, topic: string)
    requires forall i :: 0 <= i < |doc.sections| ==> !TitleMentions(doc.sections[i], ToLower(topic))
    ensures var q, r := ToLower(topic), TopicInformation(doc, topic);
            && (SubsectionHit(doc.sections, q).Some? ==> r == SubsectionHit(doc.sections, q).value)
            && (SubsectionHit(doc.sections, q).None? && ContentHit(doc.sections, q).Some? ==>
                  r == ContentHit(doc.sections, q).value)
            && (SubsectionHit(doc.sections, q).None? && ContentHit(doc.sections, q).None? ==>
                  r == NoTopicInfo(topic, NotFoundMessage(topic), Take(doc.topics, 5)))
  {
    var q := ToLower(topic);
    forall i | 0 <= i < |doc.sections| ensures !TitleIs(doc.sections[i], q) {
      if TitleIs(doc.sections[i], q) {
        ExactTitleMentions(doc.sections[i], q);
      }
    }
    assert FindFirst(doc.sections, sec => TitleIs(sec, q)) == None;
    assert FindFirst(doc.sections, sec => TitleMentions(sec, q)) == None;
    assert PartialTitleSearch(doc, topic) == DeepSearch(doc, topic);
  }

  /** The answer is "nothing found" exactly when no title, subsection title,
      text or subsection text mentions the topic; it then suggests a prefix
      of at most five of the document's topics. */
  lemma TopicNotFound(doc: Document, topic: string)
    ensures var q := ToLower(topic);
            var r := TopicInformation(doc, topic);
            r.NoTopicInfo? <==> forall i :: 0 <= i < |doc.sections| ==>
                                  !TitleMentions(doc.sections[i], q) && !HasSubtitleMention(doc.sections[i], q)
                                  && !HasContentMention(doc.sections[i], q)
    ensures var r := TopicInformation(doc, topic);
            r.NoTopicInfo? ==> r.title == topic && r.suggestedTopics == doc.topics[..Min(5, |doc.topics|)]
  {
    var q := ToLower(topic);
    if forall i :: 0 <= i < |doc.sections| ==> !TitleMentions(doc.sections[i], q) {
      TopicFallsThrough(doc, topic);
      SubsectionHitNone(doc.sections, q);
      ContentHitNone(doc.sections, q);
    } else {
      var i :| 0 <= i < |doc.sections| && TitleMentions(doc.sections[i], q);
      FirstSatisfying(doc.sections, sec => TitleMentions(sec, q), i);
      var k :| FirstAt(doc.sections, sec => TitleMentions(sec, q), k);
      if forall j :: 0 <= j < |doc.sections| ==> !TitleIs(doc.sections[j], q) {
        TopicByPartialTitle(doc, topic, k);
      } else {
        var j :| 0 <= j < |doc.sections| && TitleIs(doc.sections[j], q);
        FirstSatisfying(doc.sections, sec => TitleIs(sec, q), j);
        var e :| FirstAt(doc.sections, sec => TitleIs(sec, q), e);
        TopicByExactTitle(doc, topic, e);
      }
    }
  }

  /** Whatever the spelling of the topic, the same section answers: only
      its lower-cased form is compared, and only the "nothing found" answer
      repeats the topic as written. */
  lemma TopicCaseInsensitive(doc: Document, a: string, b: string)
    requires ToLower(a) == ToLower(b)
    ensures TopicInformation(doc, a).NoTopicInfo? == TopicInformation(doc, b).NoTopicInfo?
    ensures !TopicInformation(doc, a).NoTopicInfo? ==> TopicInformation(doc, a) == TopicInformation(doc, b)
  {
  }

  /** The content search answers with the matching lines only: and when the
      topic has no line break, there is at least one of them. */
  lemma ContentAnswerHasMatchingLine(sec: Section, q: string)
    requires Mentions(sec.content, q) && '\n' !in q
    ensures ContentAnswer(sec, q).content == RelevantLines(sec.content, q)
    ensures Filter(Split(sec.content, '\n'), line => Mentions(line, q)) != []
  {
    MentionInSomeLine(sec.content, q);
    var k :| 0 <= k < |Split(sec.content, '\n')| && Mentions(Split(sec.content, '\n')[k], q);
    var m := Filter(Split(sec.content, '\n'), line => Mentions(line, q));
    assert Split(sec.content, '\n')[k] in m;
  }

  // ---------------------------------------------------------------------
  // getMcpServerDetails

  datatype ServerInfo =
    | ServerEntry(name: string, installationCode: string, description: string)
    | SectionExcerpt(name: string, description: string, section: string, note: string)
    | SubsectionMention(name: string, description: string, section: string, subsection: string)
    | UnknownServer(name: string, description: string, availableServers: seq<string>)

  const LimitedNote := "Limited information available"

  function UnknownServerMessage(serverName: string): string {
    "No information found about \"" + serverName + "\" MCP server."
  }

  /** Here, unlike in the parser, "mcp" is matched in any case. */
  predicate ServerTitled(title: string) {
    Contains(ToLower(title), "mcp") || Contains(ToLower(title), "server")
  }

  /** Up to ten lines starting at the first line that mentions `q`. */
  function Excerpt(text: string, q: string, start: nat): (r: string)
    requires start < |Split(text, '\n')|
  {
    var lines := Split(text, '\n');
    Join(lines[start..Min(start + 10, |lines|)], "\n")
  }

  /** The excerpt is the run of at most ten consecutive lines that starts
      at `start`: splitting it gives them back. */
  lemma ExcerptLines(text: string, q: string, start: nat)
    requires start < |Split(text, '\n')|
    ensures var lines := Split(text, '\n');
            var part := Split(Excerpt(text, q, start), '\n');
            && part == lines[start..Min(start + 10, |lines|)]
            && 1 <= |part| <= 10
  {
    var lines := Split(text, '\n');
    var part := lines[start..Min(start + 10, |lines|)];
    assert forall k :: 0 <= k < |part| ==> part[k] == lines[start + k];
    SplitJoin(part, '\n');
  }

  /** What one server-titled section says about `q`: an excerpt from the
      first line of its text that mentions it, or else the text of its first
      subsection that does. */
  function SectionServerHit(sec: Section, serverName: string, q: string): (r: Option<ServerInfo>)
    ensures r.Some? ==> r.value.name == serverName && (r.value.SectionExcerpt? || r.value.SubsectionMention?)
  {
    var lines := Split(sec.content, '\n');
    var start := if Mentions(sec.content, q) then FindFirst(lines, line => Mentions(line, q)) else None;
    match start
    case Some(k) => Some(SectionExcerpt(serverName, Excerpt(sec.content, q, k), sec.title, LimitedNote))
    case None =>
      match FindFirst(sec.subsections, (sub: Subsection) => Mentions(sub.content, q))
      case Some(j) =>
        Some(SubsectionMention(serverName, sec.subsections[j].content, sec.title, sec.subsections[j].title))
      case None => None
  }

  /** When no line of a section's own text mentions `q`, the answer is the
      whole text of the first subsection whose text mentions it. */
  lemma SectionServerHitFromSubsection(sec: Section, serverName: string, q: string, j: int)
    requires forall k :: 0 <= k < |Split(sec.content, '\n')| ==> !Mentions(Split(sec.content, '\n')[k], q)
    requires FirstAt(sec.subsections, (sub: Subsection) => Mentions(sub.content, q), j)
    ensures SectionServerHit(sec, serverName, q)
            == Some(SubsectionMention(serverName, sec.subsections[j].content, sec.title, sec.subsections[j].title))
  {
    FirstAtIsFindFirst(sec.subsections, (sub: Subsection) => Mentions(sub.content, q), j);
  }

  /** With no mention in its own lines nor in any subsection, a section has
      nothing to say about `q`. */
  lemma SectionServerHitNothing(sec: Section, serverName: string, q: string)
    requires forall k :: 0 <= k < |Split(sec.content, '\n')| ==> !Mentions(Split(sec.content, '\n')[k], q)
    requires forall j :: 0 <= j < |sec.subsections| ==> !Mentions(sec.subsections[j].content, q)
    ensures SectionServerHit(sec, serverName, q).None?
  {
  }

  predicate ServerSectionAnswers(sec: Section, serverName: string, q: string) {
    ServerTitled(sec.title) && SectionServerHit(sec, serverName, q).Some?
  }

  /** The section search: the first server-titled section that says
      something about `q`. */
  function ServerSectionHit(sections: seq<Section>, serverName: string, q: string): (r: Option<ServerInfo>)
    ensures r.Some? ==> r.value.name == serverName && !r.value.ServerEntry? && !r.value.UnknownServer?
    decreases |sections|
  {
    if sections == [] then None
    else if ServerSectionAnswers(sections[0], serverName, q) then SectionServerHit(sections[0], serverName, q)
    else ServerSectionHit(sections[1..], serverName, q)
  }

  /** The section search finds nothing exactly when no server-titled
      section says anything about `q`. */
  lemma {:induction false} ServerSectionHitNone(sections: seq<Section>, serverName: string, q: string)
    ensures ServerSectionHit(sections, serverName, q).None? <==>
              forall i :: 0 <= i < |sections| ==> !ServerSectionAnswers(sections[i], serverName, q)
    decreases |sections|
  {
    if sections != [] {
      ServerSectionHitNone(sections[1..], serverName, q);
      assert forall i :: 1 <= i < |sections| ==> sections[1..][i - 1] == sections[i];
    }
  }

  /** Otherwise it answers from the first that does. */
  lemma {:induction false} ServerSectionHitAt(sections: seq<Section>, serverName: string, q: string, i: int)
    requires FirstAt(sections, sec => ServerSectionAnswers(sec, serverName, q), i)
    ensures ServerSectionHit(sections, serverName, q) == SectionServerHit(sections[i], serverName, q)
    decreases i
  {
    if i > 0 {
      var rest := sections[1..];
      assert forall k :: 0 <= k < i - 1 ==> rest[k] == sections[k + 1];
      assert FirstAt(rest, sec => ServerSectionAnswers(sec, serverName, q), i - 1);
      ServerSectionHitAt(rest, serverName, q, i - 1);
    }
  }

  function ServerNamesOf(servers: seq<McpServer>): (r: seq<string>)
    ensures |r| == |servers| && forall k :: 0 <= k < |servers| ==> r[k] == servers[k].name
  {
    seq(|servers|, k requires 0 <= k < |servers| => servers[k].name)
  }

  predicate NameMentions(m: McpServer, q: string) {
    Mentions(m.name, q)
  }

  /** `getMcpServerDetails(parsedContent, serverName)`. */
  function McpServerDetails(doc: Document, serverName: string): (r: ServerInfo)
    ensures !r.ServerEntry? ==> r.name == serverName
  {
    var q := ToLower(serverName);
    match FindFirst(doc.mcpServers, m => NameMentions(m, q))
    case Some(k) =>
      var m := doc.mcpServers[k];
      ServerEntry(m.name, m.installationCode, m.description)
    case None => SectionSearch(doc, serverName)
  }

  /** The search of server-titled sections, and the unknown-server answer. */
  function SectionSearch(doc: Document, serverName: string): (r: ServerInfo)
    ensures r.name == serverName
  {
    match ServerSectionHit(doc.sections, serverName, ToLower(serverName))
    case Some(a) => a
    case None => UnknownServer(serverName, UnknownServerMessage(serverName), ServerNamesOf(doc.mcpServers))
  }

  /** The first recorded server whose name mentions the query answers with
      its installation code and description. */
  lemma ServerByName(doc: Document, serverName: string, k: int)
    requires FirstAt(doc.mcpServers, m => NameMentions(m, ToLower(serverName)), k)
    ensures var m := doc.mcpServers[k];
            McpServerDetails(doc, serverName) == ServerEntry(m.name, m.installationCode, m.description)
  {
    FirstAtIsFindFirst(doc.mcpServers, m => NameMentions(m, ToLower(serverName)), k);
  }

  /** With no recorded server whose name mentions the query, the first
      server-titled section that says something about it answers. */
  lemma ServerBySection(doc: Document, serverName: string, i: int)
    requires forall k :: 0 <= k < |doc.mcpServers| ==> !NameMentions(doc.mcpServers[k], ToLower(serverName))
    requires FirstAt(doc.sections, sec => ServerSectionAnswers(sec, serverName, ToLower(serverName)), i)
    ensures McpServerDetails(doc, serverName) == SectionServerHit(doc.sections[i], serverName, ToLower(serverName)).value
  {
    var q := ToLower(serverName);
    assert FindFirst(doc.mcpServers, m => NameMentions(m, q)) == None;
    ServerSectionHitAt(doc.sections, serverName, q, i);
  }

  /** The section search answering from a subsection: the first answering
      section has no mentioning line of its own, so its first subsection
      whose text mentions the name is returned whole. */
  lemma ServerBySubsection(doc: Document, serverName: string, i: int, j: int)
    requires forall k :: 0 <= k < |doc.mcpServers| ==> !NameMentions(doc.mcpServers[k], ToLower(serverName))
    requires FirstAt(doc.sections, sec => ServerSectionAnswers(sec, serverName, ToLower(serverName)), i)
    requires var lines := Split(doc.sections[i].content, '\n');
             forall k :: 0 <= k < |lines| ==> !Mentions(lines[k], ToLower(serverName))
    requires FirstAt(doc.sections[i].subsections, (sub: Subsection) => Mentions(sub.content, ToLower(serverName)), j)
    ensures var sec := doc.sections[i];
            McpServerDetails(doc, serverName)
            == SubsectionMention(serverName, sec.subsections[j].content, sec.title, sec.subsections[j].title)
  {
    ServerBySection(doc, serverName, i);
    SectionServerHitFromSubsection(doc.sections[i], serverName, ToLower(serverName), j);
  }

  /** When no section says anything either, the server is unknown and the
      answer lists the names of all recorded servers. */
  lemma ServerUnknown(doc: Document, serverName: string)
    requires forall k :: 0 <= k < |doc.mcpServers| ==> !NameMentions(doc.mcpServers[k], ToLower(serverName))
    ensures var q, r := ToLower(serverName), McpServerDetails(doc, serverName);
            && (r.UnknownServer? <==>
                  forall i :: 0 <= i < |doc.sections| ==> !ServerSectionAnswers(doc.sections[i], serverName, q))
            && (r.UnknownServer? ==>
                  r == UnknownServer(serverName, UnknownServerMessage(serverName), ServerNamesOf(doc.mcpServers)))
  {
    var q := ToLower(serverName);
    assert FindFirst(doc.mcpServers, m => NameMentions(m, q)) == None;
    ServerSectionHitNone(doc.sections, serverName, q);
  }

  /** A recorded server is answered with exactly when its name mentions the
      query; an unknown-server answer means no recorded name does. */
  lemma UnknownServerMeansNoName(doc: Document, serverName: string)
    ensures McpServerDetails(doc, serverName).ServerEntry? <==>
              exists k :: 0 <= k < |doc.mcpServers| && NameMentions(doc.mcpServers[k], ToLower(serverName))
  {
    var q := ToLower(serverName);
    if !McpServerDetails(doc, serverName).ServerEntry? {
      forall k | 0 <= k < |doc.mcpServers| ensures !NameMentions(doc.mcpServers[k], q) {
        assert FindFirst(doc.mcpServers, m => NameMentions(m, q)).None?;
      }
    }
  }

  /** When a server-titled section's text mentions a name without a line
      break, the excerpt branch is always taken, it starts at the first line
      that mentions the name, and it holds at most ten lines. */
  lemma SectionMentionGivesExcerpt(sec: Section, serverName: string)
    requires Mentions(sec.content, ToLower(serverName)) && '\n' !in ToLower(serverName)
    ensures var q := ToLower(serverName);
            var lines := Split(sec.content, '\n');
            var r := SectionServerHit(sec, serverName, q);
            && r.Some? && r.value.SectionExcerpt?
            && exists k :: FirstAt(lines, line => Mentions(line, q), k)
                           && r.value == SectionExcerpt(serverName, Excerpt(sec.content, q, k), sec.title, LimitedNote)
                           && Split(r.value.description, '\n') == lines[k..Min(k + 10, |lines|)]
  {
    var q := ToLower(serverName);
    var lines := Split(sec.content, '\n');
    MentionInSomeLine(sec.content, q);
    var k :| 0 <= k < |lines| && Mentions(lines[k], q);
    match FindFirst(lines, line => Mentions(line, q))
    case Some(f) =>
      ExcerptLines(sec.content, q, f);
      assert FirstAt(lines, line => Mentions(line, q), f);
  }

  // ---------------------------------------------------------------------
  // getArchitectureDiagram

  datatype ArchitectureInfo =
    | SectionDiagram(title: string, diagramCode: string, description: string)
    | SectionDescription(title: string, description: string, note: string)
    | LooseDiagram(title: string, diagramCode: string, note: string)
    | NoDiagram(title: string, description: string)

  const DiagramTitle := "Architecture Diagram"
  const NoCodeNote := "Diagram code not found but architecture is described in this section"
  const LooseNote := "Found diagram code but no specific architecture section"
  const NoDiagramMessage := "No architecture diagram information found in the session content."

  predicate IsArchitectureSection(sec: Section) {
    Contains(ToLower(sec.title), "architecture") || Contains(ToLower(sec.content), "architecture diagram")
  }

  /** A block recorded under the section's title that is a mermaid block, or
      any such block when the section's text (case as written) contains
      "mermaid(". */
  predicate IsSectionDiagram(c: CodeBlock, sec: Section) {
    c.section == sec.title && (c.language == "mermaid" || Contains(sec.content, "mermaid("))
  }

  predicate IsLooseDiagram(c: CodeBlock) {
    c.language == "mermaid" || Contains(c.content, "flowchart")
  }

  /** `getArchitectureDiagram(parsedContent)`. The answer names an
      architecture section exactly when the document has one; otherwise it
      carries the generic diagram title. */
  function ArchitectureDiagram(doc: Document): (r: ArchitectureInfo)
    ensures (r.SectionDiagram? || r.SectionDescription?) <==>
            exists i :: 0 <= i < |doc.sections| && IsArchitectureSection(doc.sections[i])
    ensures (r.SectionDiagram? || r.SectionDescription?) ==>
            exists i :: 0 <= i < |doc.sections| && IsArchitectureSection(doc.sections[i]) && doc.sections[i].title == r.title
    ensures (r.LooseDiagram? || r.NoDiagram?) ==> r.title == DiagramTitle
  {
    match FindFirst(doc.sections, IsArchitectureSection)
    case Some(i) => SectionDiagramOf(doc, doc.sections[i])
    case None => LooseSearch(doc)
  }

  /** The answer from the architecture section `sec`. */
  function SectionDiagramOf(doc: Document, sec: Section): (r: ArchitectureInfo)
    ensures (r.SectionDiagram? || r.SectionDescription?) && r.title == sec.title
  {
    match FindFirst(doc.codeSnippets, (c: CodeBlock) => IsSectionDiagram(c, sec))
    case Some(k) => SectionDiagram(sec.title, doc.codeSnippets[k].content, sec.content)
    case None => SectionDescription(sec.title, sec.content, NoCodeNote)
  }

  /** The answer with no architecture section: the first loose diagram. */
  function LooseSearch(doc: Document): (r: ArchitectureInfo)
    ensures (r.LooseDiagram? || r.NoDiagram?) && r.title == DiagramTitle
  {
    match FindFirst(doc.codeSnippets, IsLooseDiagram)
    case Some(k) => LooseDiagram(DiagramTitle, doc.codeSnippets[k].content, LooseNote)
    case None => NoDiagram(DiagramTitle, NoDiagramMessage)
  }

  /** The first architecture section with a diagram block filed under its
      title answers with the first such block's code. */
  lemma DiagramFromSection(doc: Document, i: int, k: int)
    requires FirstAt(doc.sections, IsArchitectureSection, i)
    requires FirstAt(doc.codeSnippets, (c: CodeBlock) => IsSectionDiagram(c, doc.sections[i]), k)
    ensures var sec := doc.sections[i];
            ArchitectureDiagram(doc) == SectionDiagram(sec.title, doc.codeSnippets[k].content, sec.content)
  {
    FirstAtIsFindFirst(doc.sections, IsArchitectureSection, i);
    FirstAtIsFindFirst(doc.codeSnippets, (c: CodeBlock) => IsSectionDiagram(c, doc.sections[i]), k);
  }

  /** Without such a block the section's text is returned with a note. */
  lemma DescriptionFromSection(doc: Document, i: int)
    requires FirstAt(doc.sections, IsArchitectureSection, i)
    requires forall k :: 0 <= k < |doc.codeSnippets| ==> !IsSectionDiagram(doc.codeSnippets[k], doc.sections[i])
    ensures var sec := doc.sections[i];
            ArchitectureDiagram(doc) == SectionDescription(sec.title, sec.content, NoCodeNote)
  {
    FirstAtIsFindFirst(doc.sections, IsArchitectureSection, i);
  }

  /** With no architecture section, the first block marked mermaid or
      mentioning "flowchart" answers, and otherwise nothing is found. */
  lemma DiagramWithoutSection(doc: Document)
    requires forall i :: 0 <= i < |doc.sections| ==> !IsArchitectureSection(doc.sections[i])
    ensures forall k :: FirstAt(doc.codeSnippets, IsLooseDiagram, k) ==>
              ArchitectureDiagram(doc) == LooseDiagram(DiagramTitle, doc.codeSnippets[k].content, LooseNote)
    ensures (forall k :: 0 <= k < |doc.codeSnippets| ==> !IsLooseDiagram(doc.codeSnippets[k])) ==>
              ArchitectureDiagram(doc) == NoDiagram(DiagramTitle, NoDiagramMessage)
  {
    assert FindFirst(doc.sections, IsArchitectureSection) == None;
    forall k | FirstAt(doc.codeSnippets, IsLooseDiagram, k)
      ensures ArchitectureDiagram(doc) == LooseDiagram(DiagramTitle, doc.codeSnippets[k].content, LooseNote)
    {
      FirstAtIsFindFirst(doc.codeSnippets, IsLooseDiagram, k);
    }
  }

  /** Any diagram code returned is the text of a recorded block: one filed
      under the architecture section's title, or (with no such section) one
      marked mermaid or mentioning "flowchart". */
  lemma DiagramCodeIsRecorded(doc: Document)
    ensures var r := ArchitectureDiagram(doc);
            && (r.SectionDiagram? ==> exists k :: 0 <= k < |doc.codeSnippets| && doc.codeSnippets[k].content == r.diagramCode
                                                && doc.codeSnippets[k].section == r.title)
            && (r.LooseDiagram? ==> exists k :: 0 <= k < |doc.codeSnippets| && doc.codeSnippets[k].content == r.diagramCode
                                              && IsLooseDiagram(doc.codeSnippets[k]))
            && (r.LooseDiagram? || r.NoDiagram? <==>
                  forall i :: 0 <= i < |doc.sections| ==> !IsArchitectureSection(doc.sections[i]))
  {
    match FindFirst(doc.sections, IsArchitectureSection)
    case Some(i) =>
      var sec := doc.sections[i];
      match FindFirst(doc.codeSnippets, (c: CodeBlock) => IsSectionDiagram(c, sec)) {
        case Some(k) =>
          assert doc.codeSnippets[k].section == sec.title;
        case None =>
      }
    case None =>
  }

  /** When the architecture section's text names "mermaid(", the first block
      filed under its title is taken whatever its language. */
  lemma MermaidMentionTakesAnyBlock(doc: Document, i: nat, k: nat)
    requires FirstAt(doc.sections, IsArchitectureSection, i)
    requires Contains(doc.sections[i].content, "mermaid(")
    requires FirstAt(doc.codeSnippets, (c: CodeBlock) => c.section == doc.sections[i].title, k)
    ensures ArchitectureDiagram(doc) == SectionDiagram(doc.sections[i].title, doc.codeSnippets[k].content,
                                                       doc.sections[i].content)
  {
    var sec := doc.sections[i];
    assert FirstAt(doc.codeSnippets, (c: CodeBlock) => IsSectionDiagram(c, sec), k);
    DiagramFromSection(doc, i, k);
  }
}
