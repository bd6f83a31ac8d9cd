/**
 * The event log of the realtime client (client/components/EventLog.jsx):
 * which events of a session are listed, and the small tests each listed
 * event makes of itself.
 *
 * The list keeps every event in order, except that of the events whose
 * type ends in "delta" (the streamed fragments of one response) only the
 * first of each type is kept. A dictionary from type to the first event
 * of that type remembers which delta types have been seen.
 */
module EventLog {
  import opened Text

  /** One element of a response's `output`: its `type` and its `text`,
      absent when the element has none. */
  datatype OutputItem = OutputItem(itemType: string, text: Option<string>)

  /** A response, whose `output` may be missing. */
  datatype Response = Response(output: Option<seq<OutputItem>>)

  /** An event as the client receives or sends it; `event_id` and
      `response` may be missing. */
  datatype Event = Event(eventId: Option<string>, eventType: string, response: Option<Response>)

  /** What the log shows: the placeholder, or a list of events. */
  datatype Display = Awaiting | Listed(events: seq<Event>)

  // ---------------------------------------------------------------------
  // The tests one event makes of itself

  /** `isClient`: the event has a non-empty id that does not start with
      "event_" (ids the server assigns start so). */
  predicate IsClient(e: Event) {
    e.eventId.Some? && e.eventId.value != "" && !StartsWith(e.eventId.value, "event_")
  }

  /** An event without an id, or with an id the server assigned, is not
      shown as coming from the client; any other non-empty id is. */
  lemma ClientByEventId(e: Event, suffix: string)
    ensures e.eventId.None? ==> !IsClient(e)
    ensures e.eventId == Some("event_" + suffix) ==> !IsClient(e)
    ensures e.eventId.Some? && e.eventId.value != "" && !StartsWith(e.eventId.value, "event_") ==> IsClient(e)
  {
    if e.eventId == Some("event_" + suffix) {
      assert e.eventId.value[..6] == "event_";
    }
  }

  /** `item.type === "text" && item.text`: a text part with some text. */
  predicate IsTextPart(item: OutputItem) {
    item.itemType == "text" && item.text.Some? && item.text.value != ""
  }

  /** `event.response?.output`, with a missing one read as empty. */
  function Outputs(e: Event): seq<OutputItem> {
    if e.response.Some? && e.response.value.output.Some? then e.response.value.output.value else []
  }

  /** `isTextResponse`: a finished response with some text part. */
  predicate IsTextResponse(e: Event) {
    e.eventType == "response.done" && exists k :: 0 <= k < |Outputs(e)| && IsTextPart(Outputs(e)[k])
  }

  /** `output.filter(isTextPart).map(item => item.text)`: the texts of the
      text parts, in order. None is empty, and there is one exactly when
      some part is a text part. */
  function TextsOf(items: seq<OutputItem>): (r: seq<string>)
    ensures forall j :: 0 <= j < |r| ==> r[j] != ""
    ensures r != [] <==> exists k :: 0 <= k < |items| && IsTextPart(items[k])
  {
    var parts := Filter(items, IsTextPart);
    FilterNonEmpty(items, IsTextPart);
    seq(|parts|, j requires 0 <= j < |parts| => parts[j].text.value)
  }

  /** The texts of two runs of output items are the texts of the first
      followed by those of the second. */
  lemma TextsOfAppend(a: seq<OutputItem>, b: seq<OutputItem>)
    ensures TextsOf(a + b) == TextsOf(a) + TextsOf(b)
  {
    var pa: seq<OutputItem>, pb: seq<OutputItem> := Filter(a, IsTextPart), Filter(b, IsTextPart);
    FilterAppend(a, b, IsTextPart);
    var ta, tb, tab := TextsOf(a), TextsOf(b), TextsOf(a + b);
    assert |tab| == |pa| + |pb| == |ta + tb|;
    forall j | 0 <= j < |tab|
      ensures tab[j] == (ta + tb)[j]
    {
      if j < |pa| {
        assert tab[j] == (pa + pb)[j].text.value == ta[j];
      } else {
        assert tab[j] == (pa + pb)[j].text.value == tb[j - |pa|];
      }
    }
  }

  /** A single item contributes its text exactly when it is a text part. */
  lemma TextsOfOne(x: OutputItem)
    ensures TextsOf([x]) == if IsTextPart(x) then [x.text.value] else []
  {
    assert [x][1..] == [];
  }

  /** A text response is a finished response whose text list is not empty. */
  lemma TextResponseHasTexts(e: Event)
    ensures IsTextResponse(e) <==> e.eventType == "response.done" && TextsOf(Outputs(e)) != []
  {
  }

  /** `getResponseText()`: nothing unless the event is a text response,
      and then its texts joined by single spaces. */
  function ResponseText(e: Event): (r: Option<string>)
    ensures r.None? <==> !IsTextResponse(e)
  {
    if !IsTextResponse(e) then None else Some(Join(TextsOf(Outputs(e)), " "))
  }

  /** The text of a text response is never empty, and when no part holds
      a space, splitting it at spaces gives the parts back in order. */
  lemma ResponseTextParts(e: Event)
    requires IsTextResponse(e)
    ensures ResponseText(e).value != ""
    ensures (forall j :: 0 <= j < |TextsOf(Outputs(e))| ==> ' ' !in TextsOf(Outputs(e))[j]) ==>
              Split(ResponseText(e).value, ' ') == TextsOf(Outputs(e))
  {
    var texts := TextsOf(Outputs(e));
    JoinNonEmpty(texts, " ");
    if forall j :: 0 <= j < |texts| ==> ' ' !in texts[j] {
      SplitJoin(texts, ' ');
    }
  }

  /** Joining a list whose first part is non-empty gives a non-empty text. */
  lemma JoinNonEmpty(parts: seq<string>, sep: string)
    requires parts != [] && parts[0] != ""
    ensures Join(parts, sep) != ""
  {
    if |parts| > 1 {
      assert |Join(parts, sep)| >= |parts[0]|;
    }
  }

  // ---------------------------------------------------------------------
  // Which events are listed

  predicate IsDelta(e: Event) {
    EndsWith(e.eventType, "delta")
  }

  /** A delta event of type `t` occurs in `events`. */
  predicate SeenDelta(events: seq<Event>, t: string) {
    exists j :: 0 <= j < |events| && IsDelta(events[j]) && events[j].eventType == t
  }

  /** The events listed for `events`, one event at a time from the left. */
  function Shown(events: seq<Event>): (r: seq<Event>)
    ensures |r| <= |events|
    decreases |events|
  {
    if events == [] then []
    else
      var init, e := events[..|events| - 1], events[|events| - 1];
      if IsDelta(e) && SeenDelta(init, e.eventType) then Shown(init) else Shown(init) + [e]
  }

  /** `EventLog({ events })`: the placeholder for an empty log, and
      otherwise the events the loop keeps. */
  method Render(events: seq<Event>) returns (d: Display)
    ensures d == if events == [] then Awaiting else Listed(Shown(events))
  {
    var eventsToDisplay: seq<Event> := [];
    var deltaEvents: map<string, Event> := map[];
    for i := 0 to |events|
      invariant eventsToDisplay == Shown(events[..i])
      invariant forall t :: t in deltaEvents <==> SeenDelta(events[..i], t)
      invariant forall t :: t in deltaEvents ==> deltaEvents[t].eventType == t
    {
      var event := events[i];
      SeenSnoc(events[..i], event);
      assert events[..i + 1] == events[..i] + [event];
      if IsDelta(event) {
        if event.eventType in deltaEvents {
          continue;
        } else {
          deltaEvents := deltaEvents[event.eventType := event];
        }
      }
      eventsToDisplay := eventsToDisplay + [event];
    }
    assert events[..|events|] == events;
    if |events| == 0 {
      d := Awaiting;
    } else {
      d := Listed(eventsToDisplay);
    }
  }

  /** One more event: its type is seen exactly when it is a delta, or was
      seen before. */
  lemma SeenSnoc(events: seq<Event>, e: Event)
    ensures forall t :: SeenDelta(events + [e], t) <==> SeenDelta(events, t) || (IsDelta(e) && e.eventType == t)
  {
    var s := events + [e];
    assert forall j :: 0 <= j < |events| ==> s[j] == events[j];
    assert s[|events|] == e;
  }

  /** Listing one more event at the end. */
  lemma ShownSnoc(events: seq<Event>, e: Event)
    ensures Shown(events + [e]) == if IsDelta(e) && SeenDelta(events, e.eventType) then Shown(events) else Shown(events) + [e]
  {
    SnocPrefix(events, e);
  }

  /** An order-preserving subsequence of `b`. */
  predicate IsSubsequence(a: seq<Event>, b: seq<Event>)
    decreases |b|
  {
    if a == [] then true
    else if b == [] then false
    else (a[|a| - 1] == b[|b| - 1] && IsSubsequence(a[..|a| - 1], b[..|b| - 1])) || IsSubsequence(a, b[..|b| - 1])
  }

  lemma {:induction false} SubsequenceLength(a: seq<Event>, b: seq<Event>)
    requires IsSubsequence(a, b)
    ensures |a| <= |b|
    decreases |b|
  {
    if a != [] {
      if a[|a| - 1] == b[|b| - 1] && IsSubsequence(a[..|a| - 1], b[..|b| - 1]) {
        SubsequenceLength(a[..|a| - 1], b[..|b| - 1]);
      } else {
        SubsequenceLength(a, b[..|b| - 1]);
      }
    }
  }

  /** The list is an order-preserving subsequence of the events, so it is
      never longer. */
  lemma {:induction false} ShownIsSubsequence(events: seq<Event>)
    ensures IsSubsequence(Shown(events), events)
    ensures |Shown(events)| <= |events|
    decreases |events|
  {
    if events != [] {
      var init, e := events[..|events| - 1], events[|events| - 1];
      ShownIsSubsequence(init);
      var s := Shown(events);
      if IsDelta(e) && SeenDelta(init, e.eventType) {
        assert s == Shown(init);
        if s != [] {
          assert IsSubsequence(s, events);
        }
      } else {
        assert s == Shown(init) + [e];
        assert s[..|s| - 1] == Shown(init);
      }
      SubsequenceLength(s, events);
    }
  }

  /** Every event that is not a delta is listed, in input order: the
      non-delta events of the list are exactly those of the input. */
  lemma {:induction false} NonDeltaEventsKept(events: seq<Event>)
    ensures Filter(Shown(events), e => !IsDelta(e)) == Filter(events, e => !IsDelta(e))
    decreases |events|
  {
    if events != [] {
      var init, e := events[..|events| - 1], events[|events| - 1];
      NonDeltaEventsKept(init);
      assert events == init + [e];
      FilterAppend(init, [e], e => !IsDelta(e));
      if !(IsDelta(e) && SeenDelta(init, e.eventType)) {
        FilterAppend(Shown(init), [e], e => !IsDelta(e));
      }
    }
  }

  /** The events of one type `t` that are listed. */
  function OfType(events: seq<Event>, t: string): seq<Event> {
    Filter(events, (e: Event) => e.eventType == t)
  }

  /** Of each delta type only the first event is listed: the listed events
      of a type ending in "delta" are the first of the input's, if any. */
  lemma {:induction false} FirstDeltaOnly(events: seq<Event>, t: string)
    requires EndsWith(t, "delta")
    ensures OfType(Shown(events), t) == Take(OfType(events, t), 1)
    decreases |events|
  {
    if events != [] {
      var init, e := events[..|events| - 1], events[|events| - 1];
      FirstDeltaOnly(init, t);
      assert events == init + [e];
      OfTypeSnoc(init, e, t);
      SeenIsOfType(init, t);
      TakeOneAppend(OfType(init, t), if e.eventType == t then [e] else []);
      if !(IsDelta(e) && SeenDelta(init, e.eventType)) {
        OfTypeSnoc(Shown(init), e, t);
        if e.eventType == t {
          assert OfType(init, t) == [];
        }
      }
    }
  }

  lemma OfTypeSnoc(events: seq<Event>, e: Event, t: string)
    ensures OfType(events + [e], t) == OfType(events, t) + if e.eventType == t then [e] else []
  {
    FilterAppend(events, [e], (x: Event) => x.eventType == t);
  }

  lemma TakeOneAppend(a: seq<Event>, b: seq<Event>)
    ensures a != [] ==> Take(a + b, 1) == Take(a, 1)
    ensures a == [] ==> Take(a + b, 1) == Take(b, 1)
  {
    if a != [] {
      assert (a + b)[..1] == a[..1];
    } else {
      assert a + b == b;
    }
  }

  /** For a delta type, being seen is having some event of that type. */
  lemma SeenIsOfType(events: seq<Event>, t: string)
    requires EndsWith(t, "delta")
    ensures SeenDelta(events, t) <==> OfType(events, t) != []
  {
    if SeenDelta(events, t) {
      var j :| 0 <= j < |events| && IsDelta(events[j]) && events[j].eventType == t;
      assert events[j] in OfType(events, t);
    }
    if OfType(events, t) != [] {
      var x := OfType(events, t)[0];
      assert x in events && x.eventType == t;
      var j :| 0 <= j < |events| && events[j] == x;
      assert IsDelta(events[j]);
    }
  }

  /** An empty log shows the placeholder, and a non-empty one lists at
      least its first event. */
  lemma EmptyLogAwaits(events: seq<Event>)
    ensures events == [] ==> Shown(events) == []
    ensures events != [] ==> Shown(events) != [] && Shown(events)[0] == events[0]
  {
    if events != [] {
      ShownKeepsFirst(events);
    }
  }

  lemma {:induction false} ShownKeepsFirst(events: seq<Event>)
    requires events != []
    ensures Shown(events) != [] && Shown(events)[0] == events[0]
    decreases |events|
  {
    var init, e := events[..|events| - 1], events[|events| - 1];
    if init == [] {
      assert !SeenDelta(init, e.eventType);
    } else {
      ShownKeepsFirst(init);
      assert init[0] == events[0];
    }
  }
}
