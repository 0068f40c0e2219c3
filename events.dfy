/** The buffered events of one resource (EventList) and the query for the
    latest event of a kind: the one inserted last, by list position. */
module Events {
  import opened Wrappers

  /** The runtime class of an event; a query names the class it looks for. */
  datatype EventKind = EventKind(className: string)

  const TimerEventKind := EventKind("TimerEvent")

  /** An event: its class and the uid of the custom resource it concerns, if any. */
  datatype Event = Event(kind: EventKind, relatedCustomResourceUid: Option<string>)

  /** TimerEvent(uid, source); the event source is not modelled. */
  function TimerEvent(uid: string): Event
  {
    Event(TimerEventKind, Some(uid))
  }

  /** An EventList keeps the events in the order of the list it is built from. */
  datatype EventList = EventList(events: seq<Event>)

  /** i is the position of the last event of the kind: every later event is of another kind. */
  predicate IsLastOfKind(events: seq<Event>, kind: EventKind, i: int)
  {
    0 <= i < |events| && events[i].kind == kind &&
    forall j :: i < j < |events| ==> events[j].kind != kind
  }

  /** The events of the kind, in list order: an independent description of the query. */
  function OfKind(events: seq<Event>, kind: EventKind): seq<Event>
  {
    if events == [] then []
    else OfKind(events[..|events| - 1], kind)
         + (if events[|events| - 1].kind == kind then [events[|events| - 1]] else [])
  }

  /** Scans from the end of the list for the first event of the kind. */
  function LatestOfType(events: seq<Event>, kind: EventKind): (r: Option<Event>)
    ensures r.Some? <==> exists i :: 0 <= i < |events| && events[i].kind == kind
    ensures r.Some? ==> r.value in events && r.value.kind == kind
  {
    if events == [] then None
    else if events[|events| - 1].kind == kind then Some(events[|events| - 1])
    else
      var r := LatestOfType(events[..|events| - 1], kind);
      assert forall i :: 0 <= i < |events| - 1 ==> events[..|events| - 1][i] == events[i];
      r
  }

  /** EventList.getLatestOfType */
  function GetLatestOfType(list: EventList, kind: EventKind): (r: Option<Event>)
    ensures r.Some? <==> exists e :: e in list.events && e.kind == kind
    ensures r.Some? ==> r.value in list.events && r.value.kind == kind
  {
    LatestOfType(list.events, kind)
  }

  /** The query yields the event at the highest position of the kind. */
  lemma {:induction false} LatestIsAtHighestIndex(events: seq<Event>, kind: EventKind, i: int)
    requires IsLastOfKind(events, kind, i)
    ensures LatestOfType(events, kind) == Some(events[i])
  {
    var n := |events| - 1;
    if i < n {
      assert IsLastOfKind(events[..n], kind, i);
      LatestIsAtHighestIndex(events[..n], kind, i);
    }
  }

  /** Agreement with the reference description: the last of the events of the kind. */
  lemma {:induction false} LatestIsLastOfKind(events: seq<Event>, kind: EventKind)
    ensures LatestOfType(events, kind) ==
      if OfKind(events, kind) == [] then None else Some(OfKind(events, kind)[|OfKind(events, kind)| - 1])
  {
    if events != [] {
      LatestIsLastOfKind(events[..|events| - 1], kind);
    }
  }

  /** Appending an event of the kind makes it the answer; appending one of
      another kind leaves the answer as it was. */
  lemma AppendEvent(events: seq<Event>, e: Event, kind: EventKind)
    ensures LatestOfType(events + [e], kind) ==
      if e.kind == kind then Some(e) else LatestOfType(events, kind)
  {
  }

  /** Events before the last one of the kind never matter, whatever they hold. */
  lemma {:induction false} EarlierEventsIrrelevant(earlier: seq<Event>, later: seq<Event>, kind: EventKind)
    requires exists i :: 0 <= i < |later| && later[i].kind == kind
    ensures LatestOfType(earlier + later, kind) == LatestOfType(later, kind)
  {
    var n := |later| - 1;
    assert (earlier + later)[..|earlier| + n] == earlier + later[..n];
    assert (earlier + later)[|earlier| + n] == later[n];
    if later[n].kind != kind {
      var i :| 0 <= i < |later| && later[i].kind == kind;
      assert later[..n][i] == later[i];
      EarlierEventsIrrelevant(earlier, later[..n], kind);
    }
  }

  /** The scenario of the unit test: two events of other kinds around two timer
      events, the one for "2" inserted before the one for "1". The query returns
      the later timer event, although "1" is not the larger payload, and skips
      the trailing event of another kind. */
  lemma ReturnsLatestOfEventType(first: Event, last: Event)
    requires first.kind != TimerEventKind && last.kind != TimerEventKind
    ensures EventList([first, TimerEvent("2"), TimerEvent("1"), last]).events[2] == TimerEvent("1")
    ensures GetLatestOfType(EventList([first, TimerEvent("2"), TimerEvent("1"), last]), TimerEventKind)
      == Some(TimerEvent("1"))
    ensures GetLatestOfType(EventList([first, TimerEvent("2"), TimerEvent("1"), last]), TimerEventKind)
      != Some(TimerEvent("2"))
  {
    var events := [first, TimerEvent("2"), TimerEvent("1"), last];
    assert IsLastOfKind(events, TimerEventKind, 2);
    LatestIsAtHighestIndex(events, TimerEventKind, 2);
  }

  /** The answer depends on insertion order: with the two timer events swapped
      the query returns the event for "2". */
  lemma LatestFollowsInsertionOrder(first: Event, last: Event)
    requires first.kind != TimerEventKind && last.kind != TimerEventKind
    ensures GetLatestOfType(EventList([first, TimerEvent("1"), TimerEvent("2"), last]), TimerEventKind)
      == Some(TimerEvent("2"))
  {
    var events := [first, TimerEvent("1"), TimerEvent("2"), last];
    assert IsLastOfKind(events, TimerEventKind, 2);
    LatestIsAtHighestIndex(events, TimerEventKind, 2);
  }
}
