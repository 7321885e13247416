/** The event queue between the job that answers a query and the connections that stream the answer. */
module StreamQueue {
  import opened Wrappers

  /** `kind` is the event type; `body` is the JSON text of the whole event. */
  datatype SseEvent = SseEvent(kind: string, body: string)

  predicate IsTerminal(e: SseEvent) { e.kind == "done" || e.kind == "error" }

  /** What the queue knows of one request id. The events stay in the queue object after the id is
      cleaned up, because a waiting consumer still holds the object. */
  datatype Channel = Channel(open: bool, closed: bool, items: seq<SseEvent>)

  function Pushed(ch: Channel, e: SseEvent): Channel { if ch.open then ch.(items := ch.items + [e]) else ch }

  function Closed(ch: Channel): Channel { ch.(closed := true) }

  function CleanedUp(ch: Channel): Channel { ch.(open := false, closed := false) }

  /** `next_event` answers None without waiting. */
  predicate Exhausted(ch: Channel) { !ch.open || (ch.closed && ch.items == []) }

  /** How the answering went: the row event is there only when there are rows; `done` is None when building
      the done event raised. `error` is the event the error path would send. */
  datatype Work =
    | GraphFailed(error: SseEvent)
    | GraphAnswered(row: Option<SseEvent>, done: Option<SseEvent>, error: SseEvent)

  predicate WellTyped(work: Work) {
    && work.error.kind == "error"
    && (work.GraphAnswered? ==>
          && (work.row.Some? ==> work.row.value.kind == "row")
          && (work.done.Some? ==> work.done.value.kind == "done"))
  }

  /** Everything the producer sends for one request, in order. */
  function Script(work: Work): seq<SseEvent> {
    match work
    case GraphFailed(error) => [error]
    case GraphAnswered(row, done, error) =>
      (if row.Some? then [row.value] else []) + [if done.Some? then done.value else error]
  }

  function PushedAll(ch: Channel, events: seq<SseEvent>): Channel
    decreases |events|
  {
    if events == [] then ch else PushedAll(Pushed(ch, events[0]), events[1..])
  }

  lemma PushedAllShort(ch: Channel, a: SseEvent, b: SseEvent)
    ensures PushedAll(ch, [a]) == Pushed(ch, a)
    ensures PushedAll(ch, [a] + [b]) == Pushed(Pushed(ch, a), b)
  {
    assert ([a] + [b])[1..] == [b];
    assert [b][1..] == [];
    assert [a][1..] == [];
    assert PushedAll(Pushed(ch, a), [b]) == Pushed(Pushed(ch, a), b);
  }

  /** The last event, and no other, ends the stream. */
  predicate EndsOnce(script: seq<SseEvent>) {
    && |script| > 0
    && forall k :: 0 <= k < |script| ==> (IsTerminal(script[k]) <==> k == |script| - 1)
  }

  lemma ScriptEndsOnce(work: Work)
    requires WellTyped(work)
    ensures EndsOnce(Script(work))
  {
    var script := Script(work);
    assert |script| == 1 || |script| == 2;
  }

  class AsyncQueue {
    var items: seq<SseEvent>

    constructor ()
      ensures items == []
    {
      items := [];
    }
  }

  class StreamEventQueue {
    var queues: map<string, AsyncQueue>
    var closed: set<string>
    var owners: map<string, string>

    ghost function Queues(): set<AsyncQueue>
      reads this
    {
      set id | id in queues :: queues[id]
    }

    /** Different ids have different queues. */
    ghost predicate Valid()
      reads this
    {
      forall a, b :: a in queues && b in queues && a != b ==> queues[a] != queues[b]
    }

    ghost function View(id: string): Channel
      reads this, Queues()
    {
      Channel(id in queues, id in closed, if id in queues then assert queues[id] in Queues(); queues[id].items else [])
    }

    constructor ()
      ensures Valid() && forall id :: View(id) == Channel(false, false, [])
    {
      queues, closed, owners := map[], {}, map[];
    }

    method Create(id: string, owner: string)
      requires Valid()
      modifies this
      ensures Valid() && View(id) == Channel(true, false, []) && id in owners && owners[id] == owner
      ensures forall other :: other != id ==> View(other) == old(View(other))
    {
      var q := new AsyncQueue();
      queues := queues[id := q];
      closed := closed - {id};
      owners := owners[id := owner];
      assert forall other :: other != id && other in queues ==> queues[other] != q;
    }

    method VerifyOwner(id: string, user: string) returns (ok: bool)
      ensures ok <==> id in owners && owners[id] == user
    {
      ok := id in owners && owners[id] == user;
    }

    method Push(id: string, e: SseEvent)
      requires Valid()
      modifies Queues()
      ensures Valid() && View(id) == Pushed(old(View(id)), e)
      ensures old(View(id)).open ==> View(id) == old(View(id)).(items := old(View(id)).items + [e])
      ensures !old(View(id)).open ==> View(id) == old(View(id))
      ensures forall other :: other != id ==> View(other) == old(View(other))
    {
      if id in queues {
        var q := queues[id];
        assert q in Queues();
        q.items := q.items + [e];
      }
    }

    /** `drain`: empties the queue and returns what was in it, in order. */
    method Drain(id: string) returns (events: seq<SseEvent>)
      requires Valid()
      modifies Queues()
      ensures Valid() && events == old(View(id)).items
      ensures View(id) == old(View(id)).(items := [])
      ensures forall other :: other != id ==> View(other) == old(View(other))
    {
      events := [];
      if id !in queues { return; }
      var q := queues[id];
      assert q in Queues();
      while q.items != []
        invariant events + q.items == old(q.items)
        invariant forall other :: other in queues && other != id ==> queues[other].items == old(queues[other].items)
        decreases |q.items|
      {
        events := events + [q.items[0]];
        q.items := q.items[1..];
      }
    }

    /** One turn of `next_event` that does not have to wait: `Some(None)` when the stream is over,
        `Some(Some(e))` when an event is ready, None when the consumer has to wait. */
    method NextReady(id: string) returns (r: Option<Option<SseEvent>>)
      requires Valid()
      modifies Queues()
      ensures Valid()
      ensures Exhausted(old(View(id))) ==> r == Some(None) && View(id) == old(View(id))
      ensures !Exhausted(old(View(id))) && old(View(id)).items == [] ==> r == None && View(id) == old(View(id))
      ensures r == Some(None) <==> !old(View(id)).open || (old(View(id)).closed && old(View(id)).items == [])
      ensures !Exhausted(old(View(id))) && old(View(id)).items != [] ==>
                && r == Some(Some(old(View(id)).items[0]))
                && View(id) == old(View(id)).(items := old(View(id)).items[1..])
      ensures forall other :: other != id ==> View(other) == old(View(other))
    {
      if id !in queues { return Some(None); }
      var q := queues[id];
      assert q in Queues();
      if id in closed && q.items == [] { return Some(None); }
      if q.items == [] { return None; }
      r := Some(Some(q.items[0]));
      q.items := q.items[1..];
    }

    method Close(id: string)
      requires Valid()
      modifies this`closed
      ensures Valid() && View(id) == Closed(old(View(id))) == old(View(id)).(closed := true)
      ensures forall other :: other != id ==> View(other) == old(View(other))
    {
      closed := closed + {id};
    }

    method Cleanup(id: string)
      requires Valid()
      modifies this
      ensures Valid() && View(id) == Channel(false, false, []) && id !in owners
      ensures forall other :: other != id ==> View(other) == old(View(other))
    {
      queues := queues - {id};
      closed := closed - {id};
      owners := owners - {id};
    }

    /** `_publish_query_result`: `done` is None when building the done event raises. */
    method PublishQueryResult(id: string, row: Option<SseEvent>, done: Option<SseEvent>) returns (raised: bool)
      requires Valid()
      modifies this`closed, Queues()
      ensures Valid() && queues == old(queues) && (raised <==> done.None?)
      ensures View(id) == (var shown := if row.Some? then Pushed(old(View(id)), row.value) else old(View(id));
                           if done.Some? then Closed(Pushed(shown, done.value)) else shown)
      ensures forall other :: other != id ==> View(other) == old(View(other))
    {
      if row.Some? { Push(id, row.value); }
      if done.None? { return true; }
      Push(id, done.value);
      Close(id);
      return false;
    }

    /** The job behind a question: the graph may fail, and so may the publishing of its result. */
    method Answer(id: string, work: Work)
      requires Valid()
      modifies this`closed, Queues()
      ensures Valid() && View(id) == Closed(PushedAll(old(View(id)), Script(work)))
      ensures var was := old(View(id));
              match work
              case GraphFailed(error) =>
                View(id) == Channel(was.open, true, was.items + (if was.open then [error] else []))
              case GraphAnswered(Some(row), Some(done), _) =>
                View(id) == Channel(was.open, true, was.items + (if was.open then [row, done] else []))
              case GraphAnswered(None, Some(done), _) =>
                View(id) == Channel(was.open, true, was.items + (if was.open then [done] else []))
              case GraphAnswered(Some(row), None, error) =>
                View(id) == Channel(was.open, true, was.items + (if was.open then [row, error] else []))
              case GraphAnswered(None, None, error) =>
                View(id) == Channel(was.open, true, was.items + (if was.open then [error] else []))
      ensures forall other :: other != id ==> View(other) == old(View(other))
    {
      ghost var last := if work.GraphAnswered? && work.done.Some? then work.done.value else work.error;
      ghost var first := if work.GraphAnswered? && work.row.Some? then work.row.value else last;
      PushedAllShort(View(id), first, last);
      assert [] + [last] == [last];
      if work.GraphFailed? {
        Push(id, work.error);
        Close(id);
        return;
      }
      var raised := PublishQueryResult(id, work.row, work.done);
      if raised {
        Push(id, work.error);
        Close(id);
      }
    }
  }
}
