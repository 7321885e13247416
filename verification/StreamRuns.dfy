/** Every interleaving of one producer and any number of connections on one request id. */
module StreamRuns {
  import opened StreamQueue

  /** Where a connection's `next_event` loop stands; `New` before it runs for the first time. `Drained` and `Lost`
      are the two ways in which `next_event` answers None: the id was closed and the queue empty, or the id was gone.
      `Left` is a connection that was dropped from outside. All three clean the id up, except that a generator that
      never ran has nothing to clean up when it is dropped. */
  datatype Consumer = New | Idle | Waiting | Drained | Lost | Left

  datatype Delivery = Delivery(to: nat, event: SseEvent)

  datatype State = State(
    script: seq<SseEvent>,
    next: nat,
    finished: bool,
    channel: Channel,
    dropped: nat,
    delivered: seq<Delivery>,
    consumers: seq<Consumer>)

  datatype Action = Push | Close | Poll(c: nat) | Take(c: nat) | Timeout(c: nat) | Leave(c: nat)

  function Start(script: seq<SseEvent>, connections: nat): State {
    State(script, 0, false, Channel(true, false, []), 0, [], seq(connections, _ => New))
  }

  predicate Started(c: Consumer) { c.Idle? || c.Waiting? }

  predicate Active(c: Consumer) { c.New? || Started(c) }

  /** The connection ended by itself, which is a normal end for the page. */
  predicate Ended(c: Consumer) { c.Drained? || c.Lost? }

  function Stop(s: State, c: nat, how: Consumer): State
    requires c < |s.consumers|
  {
    s.(channel := CleanedUp(s.channel), consumers := s.consumers[c := how])
  }

  function Events(ds: seq<Delivery>): (r: seq<SseEvent>)
    ensures |r| == |ds|
  {
    seq(|ds|, k requires 0 <= k < |ds| => ds[k].event)
  }

  /** One step; an action that is not possible changes nothing. */
  function Step(s: State, a: Action): State {
    match a
    case Push =>
      if s.next >= |s.script| || s.finished then s
      else s.(next := s.next + 1,
              channel := Pushed(s.channel, s.script[s.next]),
              dropped := if s.channel.open then s.dropped else s.dropped + 1)
    case Close =>
      if s.next < |s.script| || s.finished then s else s.(finished := true, channel := Closed(s.channel))
    case Poll(c) =>
      if c >= |s.consumers| || !(s.consumers[c].New? || s.consumers[c].Idle?) then s
      else if !s.channel.open then Stop(s, c, Lost)
      else if Exhausted(s.channel) then Stop(s, c, Drained)
      else s.(consumers := s.consumers[c := Waiting])
    case Take(c) =>
      if c >= |s.consumers| || !s.consumers[c].Waiting? || s.channel.items == [] then s
      else s.(channel := s.channel.(items := s.channel.items[1..]),
              delivered := s.delivered + [Delivery(c, s.channel.items[0])],
              consumers := s.consumers[c := Idle])
    case Timeout(c) =>
      if c >= |s.consumers| || !s.consumers[c].Waiting? then s
      else if s.channel.closed && s.channel.items == [] then Stop(s, c, Drained)
      else s.(consumers := s.consumers[c := Idle])
    case Leave(c) =>
      if c >= |s.consumers| || !Active(s.consumers[c]) then s
      else if s.consumers[c].New? then s.(consumers := s.consumers[c := Left])
      else Stop(s, c, Left)
  }

  function Run(s: State, actions: seq<Action>): State
    decreases |actions|
  {
    if actions == [] then s else Run(Step(s, actions[0]), actions[1..])
  }

  /** The events the queue took: all that were pushed while the id was known. */
  function Accepted(s: State): seq<SseEvent>
    requires s.dropped <= s.next <= |s.script|
  {
    s.script[..s.next - s.dropped]
  }

  predicate Counted(s: State) {
    && s.dropped <= s.next <= |s.script|
    && (s.channel.open ==> s.dropped == 0)
    && (s.channel.closed ==> s.finished)
    && (s.channel.open && s.finished ==> s.channel.closed)
    && (s.finished ==> s.next == |s.script|)
  }

  predicate Ordered(s: State)
    requires Counted(s)
  {
    Events(s.delivered) + s.channel.items == Accepted(s)
  }

  predicate DrainedMeansEmpty(s: State) {
    forall c :: 0 <= c < |s.consumers| && s.consumers[c].Drained? ==> s.finished && s.channel.items == []
  }

  predicate Inv(s: State) { Counted(s) && Ordered(s) && DrainedMeansEmpty(s) }

  lemma PushOrdered(s: State)
    requires Counted(s) && Ordered(s)
    ensures Counted(Step(s, Push)) && Ordered(Step(s, Push))
  {
    var t := Step(s, Push);
    if s.next < |s.script| && !s.finished {
      if s.channel.open {
        assert Accepted(t) == Accepted(s) + [s.script[s.next]];
      } else {
        assert Accepted(t) == Accepted(s);
      }
    }
  }

  lemma TakeOrdered(s: State, c: nat)
    requires Counted(s) && Ordered(s)
    ensures Counted(Step(s, Take(c))) && Ordered(Step(s, Take(c)))
  {
    var t := Step(s, Take(c));
    if t.delivered != s.delivered {
      assert Events(t.delivered) == Events(s.delivered) + [s.channel.items[0]];
      assert s.channel.items == [s.channel.items[0]] + t.channel.items;
    }
  }

  lemma StepOrdered(s: State, a: Action)
    requires Counted(s) && Ordered(s)
    ensures Counted(Step(s, a)) && Ordered(Step(s, a))
  {
    match a
    case Push => PushOrdered(s);
    case Take(c) => TakeOrdered(s, c);
    case _ =>
      var t := Step(s, a);
      assert t.delivered == s.delivered && t.channel.items == s.channel.items;
  }

  lemma StepInv(s: State, a: Action)
    requires Inv(s)
    ensures Inv(Step(s, a))
  {
    StepOrdered(s, a);
  }

  lemma {:induction false} RunInv(s: State, actions: seq<Action>)
    requires Inv(s)
    ensures Inv(Run(s, actions)) && Run(s, actions).script == s.script
    decreases |actions|
  {
    if actions != [] {
      StepInv(s, actions[0]);
      RunInv(Step(s, actions[0]), actions[1..]);
    }
  }

  /** Whatever the interleaving, what the connections got, in time order, is a prefix of what was pushed, and a
      connection that stopped because the id was closed leaves nothing behind in the queue. */
  lemma DeliveriesArePrefix(script: seq<SseEvent>, connections: nat, actions: seq<Action>)
    ensures (var s := Run(Start(script, connections), actions);
             && |s.delivered| <= s.next <= |script|
             && Events(s.delivered) == script[..|s.delivered|]
             && ((exists c :: 0 <= c < |s.consumers| && s.consumers[c].Drained?) ==>
                   s.finished && s.channel.items == [] && |s.delivered| == |script| - s.dropped))
  {
    var s := Run(Start(script, connections), actions);
    RunInv(Start(script, connections), actions);
    assert (Events(s.delivered) + s.channel.items)[..|s.delivered|] == Events(s.delivered);
    assert Accepted(s)[..|s.delivered|] == script[..|s.delivered|];
    if exists c :: 0 <= c < |s.consumers| && s.consumers[c].Drained? {
      assert Events(s.delivered) + s.channel.items == Events(s.delivered);
    }
  }

  /** A done or error event, if delivered at all, is the last event delivered to anyone, and the
      last event of the script. */
  lemma TerminalIsLast(script: seq<SseEvent>, connections: nat, actions: seq<Action>, k: nat)
    requires EndsOnce(script)
    requires k < |Run(Start(script, connections), actions).delivered|
    ensures (var d := Run(Start(script, connections), actions).delivered;
             IsTerminal(d[k].event) <==> k == |script| - 1 && |d| == |script|)
  {
    DeliveriesArePrefix(script, connections, actions);
    var d := Run(Start(script, connections), actions).delivered;
    assert d[k].event == Events(d)[k];
  }

  // ----- connections that are dropped -----

  /** The step drops a running connection. */
  predicate Drops(s: State, a: Action) { a.Leave? && a.c < |s.consumers| && Started(s.consumers[a.c]) }

  /** It does so while the producer still has something to push. */
  predicate LeavesEarly(s: State, a: Action) { Drops(s, a) && s.next < |s.script| }

  /** Some step of the run does. */
  predicate LeftEarly(s: State, actions: seq<Action>)
    decreases |actions|
  {
    actions != [] && (LeavesEarly(s, actions[0]) || LeftEarly(Step(s, actions[0]), actions[1..]))
  }

  /** The id is known while there is something to push. */
  predicate Listening(s: State) { s.dropped == 0 && (s.next < |s.script| ==> s.channel.open) }

  /** The id is gone, and something is lost or will be. */
  predicate Deaf(s: State) { !s.channel.open && (s.dropped > 0 || s.next < |s.script|) }

  lemma StepListens(s: State, a: Action)
    requires Inv(s)
    ensures Listening(s) ==> if LeavesEarly(s, a) then Deaf(Step(s, a)) else Listening(Step(s, a))
    ensures Deaf(s) ==> Deaf(Step(s, a))
  {
  }

  lemma {:induction false} RunListens(s: State, actions: seq<Action>)
    requires Inv(s)
    ensures Listening(s) ==> if LeftEarly(s, actions) then Deaf(Run(s, actions)) else Listening(Run(s, actions))
    ensures Deaf(s) ==> Deaf(Run(s, actions))
    decreases |actions|
  {
    if actions != [] {
      StepInv(s, actions[0]);
      StepListens(s, actions[0]);
      RunListens(Step(s, actions[0]), actions[1..]);
    }
  }

  /** With any number of connections: once one has stopped because the id was closed, the whole script was delivered
      if and only if no running connection was dropped before the last push. */
  lemma AllDeliveredExactly(script: seq<SseEvent>, connections: nat, actions: seq<Action>)
    requires var s := Run(Start(script, connections), actions);
             exists c :: 0 <= c < |s.consumers| && s.consumers[c].Drained?
    ensures Events(Run(Start(script, connections), actions).delivered) == script
        <==> !LeftEarly(Start(script, connections), actions)
  {
    DeliveriesArePrefix(script, connections, actions);
    RunListens(Start(script, connections), actions);
    RunInv(Start(script, connections), actions);
  }

  // ----- connections that end by themselves -----

  /** A running connection is dropped while something is still to push or still queued. */
  predicate LeavesPending(s: State, a: Action) { Drops(s, a) && (s.next < |s.script| || s.channel.items != []) }

  predicate LeftPending(s: State, actions: seq<Action>)
    decreases |actions|
  {
    actions != [] && (LeavesPending(s, actions[0]) || LeftPending(Step(s, actions[0]), actions[1..]))
  }

  /** While the id is known nothing is lost, and it goes only when there is nothing left to deliver. */
  predicate Settled(s: State) {
    && s.dropped == 0 && (!s.channel.open ==> s.next == |s.script| && s.channel.items == [])
    && forall c :: 0 <= c < |s.consumers| && Ended(s.consumers[c]) ==> !s.channel.open
  }

  lemma {:induction false} RunSettled(s: State, actions: seq<Action>)
    requires Inv(s) && Settled(s) && !LeftPending(s, actions)
    ensures Settled(Run(s, actions))
    decreases |actions|
  {
    if actions != [] {
      StepInv(s, actions[0]);
      RunSettled(Step(s, actions[0]), actions[1..]);
    }
  }

  /** With any number of connections: when no running one is dropped while something is still to push or still queued,
      then once some connection has ended by itself, in whichever way, the whole script was delivered. */
  lemma EndedGetsEverything(script: seq<SseEvent>, connections: nat, actions: seq<Action>, c: nat)
    requires !LeftPending(Start(script, connections), actions)
    requires var s := Run(Start(script, connections), actions); c < |s.consumers| && Ended(s.consumers[c])
    ensures Events(Run(Start(script, connections), actions).delivered) == script
  {
    RunInv(Start(script, connections), actions);
    RunSettled(Start(script, connections), actions);
    DeliveriesArePrefix(script, connections, actions);
    var s := Run(Start(script, connections), actions);
    assert Events(s.delivered) + s.channel.items == Events(s.delivered);
  }

  /** How many connections still hold the queue. */
  function Waiters(cs: seq<Consumer>): nat {
    if cs == [] then 0 else Waiters(cs[..|cs| - 1]) + (if cs[|cs| - 1].Waiting? then 1 else 0)
  }

  lemma {:induction false} WaitersAfter(cs: seq<Consumer>, c: nat, how: Consumer)
    requires c < |cs|
    ensures Waiters(cs[c := how])
         == Waiters(cs) - (if cs[c].Waiting? then 1 else 0) + (if how.Waiting? then 1 else 0)
  {
    var front := cs[..|cs| - 1];
    if c < |front| {
      WaitersAfter(front, c, how);
      assert cs[c := how][..|cs| - 1] == front[c := how];
    } else {
      assert cs[c := how][..|cs| - 1] == front;
    }
  }

  lemma {:induction false} NoWaiters(cs: seq<Consumer>)
    ensures Waiters(cs) == 0 <==> forall c :: 0 <= c < |cs| ==> !cs[c].Waiting?
  {
    if cs != [] {
      NoWaiters(cs[..|cs| - 1]);
      assert forall c :: 0 <= c < |cs| - 1 ==> cs[..|cs| - 1][c] == cs[c];
    }
  }

  /** The id is gone and some event will not be delivered: it was or will be dropped, or more is queued than the
      connections that still hold the queue can take, one each. */
  predicate Doomed(s: State) {
    !s.channel.open && (s.dropped > 0 || s.next < |s.script| || |s.channel.items| > Waiters(s.consumers))
  }

  /** The steps that lose an event: dropping a running connection while there is something to push or more queued than
      the other holders of the queue can take, and a holder giving up although it was needed. */
  predicate Loses(s: State, a: Action) {
    match a
    case Leave(c) =>
      && Drops(s, a)
      && (s.next < |s.script| || |s.channel.items| > Waiters(s.consumers) - (if s.consumers[c].Waiting? then 1 else 0))
    case Timeout(c) =>
      && c < |s.consumers| && s.consumers[c].Waiting? && !s.channel.open
      && |s.channel.items| >= Waiters(s.consumers)
    case _ => false
  }

  predicate LostSome(s: State, actions: seq<Action>)
    decreases |actions|
  {
    actions != [] && (Loses(s, actions[0]) || LostSome(Step(s, actions[0]), actions[1..]))
  }

  /** Who has ended has cleaned up. */
  predicate EndedMeansGone(s: State) {
    forall c :: 0 <= c < |s.consumers| && Ended(s.consumers[c]) ==> !s.channel.open
  }

  /** What a step does to the number of holders. */
  lemma StepWaiters(s: State, a: Action, c: nat)
    requires (a == Poll(c) || a == Take(c) || a == Timeout(c) || a == Leave(c)) && c < |s.consumers|
    ensures var how := Step(s, a).consumers[c];
            Waiters(Step(s, a).consumers)
            == Waiters(s.consumers) - (if s.consumers[c].Waiting? then 1 else 0) + (if how.Waiting? then 1 else 0)
  {
    WaitersAfter(s.consumers, c, Step(s, a).consumers[c]);
    assert s.consumers[c := s.consumers[c]] == s.consumers;
  }

  lemma StepDooms(s: State, a: Action)
    requires Inv(s)
    ensures Doomed(Step(s, a)) <==> Doomed(s) || Loses(s, a)
  {
    match a
    case Push =>
    case Close =>
    case Poll(c) => if c < |s.consumers| { StepWaiters(s, a, c); }
    case Take(c) => if c < |s.consumers| { StepWaiters(s, a, c); NoWaiters(s.consumers); }
    case Timeout(c) => if c < |s.consumers| { StepWaiters(s, a, c); NoWaiters(s.consumers); }
    case Leave(c) => if c < |s.consumers| { StepWaiters(s, a, c); }
  }

  lemma StepGone(s: State, a: Action)
    requires EndedMeansGone(s)
    ensures EndedMeansGone(Step(s, a))
  {
  }

  lemma {:induction false} RunDooms(s: State, actions: seq<Action>)
    requires Inv(s)
    ensures Doomed(Run(s, actions)) <==> Doomed(s) || LostSome(s, actions)
    ensures EndedMeansGone(s) ==> EndedMeansGone(Run(s, actions))
    decreases |actions|
  {
    if actions != [] {
      StepInv(s, actions[0]);
      StepDooms(s, actions[0]);
      if EndedMeansGone(s) { StepGone(s, actions[0]); }
      RunDooms(Step(s, actions[0]), actions[1..]);
    }
  }

  /** With any number of connections: once some connection has ended by itself and none waits on the queue any more,
      the whole script was delivered if and only if no step lost an event. */
  lemma EndedExactly(script: seq<SseEvent>, connections: nat, actions: seq<Action>, c: nat)
    requires var s := Run(Start(script, connections), actions);
             && c < |s.consumers| && Ended(s.consumers[c])
             && forall d :: 0 <= d < |s.consumers| ==> !s.consumers[d].Waiting?
    ensures Events(Run(Start(script, connections), actions).delivered) == script
        <==> !LostSome(Start(script, connections), actions)
  {
    var s := Run(Start(script, connections), actions);
    RunInv(Start(script, connections), actions);
    RunDooms(Start(script, connections), actions);
    DeliveriesArePrefix(script, connections, actions);
    NoWaiters(s.consumers);
    if s.channel.items == [] { assert Events(s.delivered) + s.channel.items == Events(s.delivered); }
  }

  // ----- a single connection -----

  /** The id stays known to a single connection until it is drained or dropped. */
  predicate SoleInv(s: State) {
    && |s.consumers| == 1 && !s.consumers[0].Lost?
    && (Active(s.consumers[0]) ==> s.channel.open)
    && (!s.consumers[0].Left? ==> s.dropped == 0)
  }

  lemma {:induction false} SoleRun(s: State, actions: seq<Action>)
    requires Inv(s) && SoleInv(s)
    ensures Inv(Run(s, actions)) && SoleInv(Run(s, actions)) && Run(s, actions).script == s.script
    decreases |actions|
  {
    if actions != [] {
      StepInv(s, actions[0]);
      StepSole(s, actions[0]);
      SoleRun(Step(s, actions[0]), actions[1..]);
    }
  }

  lemma StepSole(s: State, a: Action)
    requires Inv(s) && SoleInv(s)
    ensures SoleInv(Step(s, a))
  {
  }

  /** A sole connection that is not dropped stops only after the whole script was delivered to it. */
  lemma SoleConnectionGetsEverything(script: seq<SseEvent>, actions: seq<Action>)
    ensures (var s := Run(Start(script, 1), actions);
             && |s.consumers| == 1
             && (Active(s.consumers[0]) || s.consumers[0].Left?
                 || (s.consumers[0].Drained? && s.finished && Events(s.delivered) == script))
             && forall k :: 0 <= k < |s.delivered| ==> s.delivered[k].to == 0)
  {
    SoleRun(Start(script, 1), actions);
    DeliveriesArePrefix(script, 1, actions);
    Recipients(Start(script, 1), actions);
  }

  lemma {:induction false} Recipients(s: State, actions: seq<Action>)
    requires forall k :: 0 <= k < |s.delivered| ==> s.delivered[k].to < |s.consumers|
    ensures (var t := Run(s, actions);
             |t.consumers| == |s.consumers| && forall k :: 0 <= k < |t.delivered| ==> t.delivered[k].to < |t.consumers|)
    decreases |actions|
  {
    if actions != [] { Recipients(Step(s, actions[0]), actions[1..]); }
  }

  // ----- a connection that is served ends -----

  function Pushes(n: nat): seq<Action> { seq(n, _ => Push) }

  /** `n` rounds in which connection `c` asks and either takes an event or gives up waiting. */
  function Rounds(c: nat, n: nat): seq<Action> {
    if n == 0 then [] else [Poll(c), Take(c), Timeout(c)] + Rounds(c, n - 1)
  }

  lemma {:induction false} RunAppend(s: State, a: seq<Action>, b: seq<Action>)
    ensures Run(s, a + b) == Run(Run(s, a), b)
    decreases |a|
  {
    if a == [] {
      assert a + b == b;
    } else {
      assert (a + b)[0] == a[0] && (a + b)[1..] == a[1..] + b;
      RunAppend(Step(s, a[0]), a[1..], b);
    }
  }

  lemma RunThree(s: State, a: Action, b: Action, d: Action)
    ensures Run(s, [a, b, d]) == Step(Step(Step(s, a), b), d)
  {
    assert [a, b, d][1..] == [b, d] && [b, d][1..] == [d] && [d][1..] == [];
    var t := Step(Step(s, a), b);
    assert Run(t, [d]) == Run(Step(t, d), []);
    assert Run(s, [a, b, d]) == Run(Step(s, a), [b, d]);
  }

  /** The id is known and connection `c` goes on. */
  predicate Served(s: State, c: nat) { c < |s.consumers| && Active(s.consumers[c]) && s.channel.open && Inv(s) }

  lemma {:induction false} PushesReach(s: State, c: nat, n: nat)
    requires Served(s, c) && n == |s.script| - s.next
    ensures var t := Run(s, Pushes(n));
            Served(t, c) && t.next == |s.script| && t.script == s.script && t.dropped == s.dropped
    decreases n
  {
    if n > 0 {
      assert Pushes(n)[1..] == Pushes(n - 1);
      StepInv(s, Push);
      PushesReach(Step(s, Push), c, n - 1);
    }
  }

  lemma Round(s: State, c: nat)
    requires Served(s, c) && s.finished && s.channel.closed
    ensures var t := Step(Step(Step(s, Poll(c)), Take(c)), Timeout(c));
            && Inv(t) && t.script == s.script && t.dropped == s.dropped && c < |t.consumers|
            && (s.channel.items == [] ==> t.consumers[c].Drained?)
            && (s.channel.items != [] ==>
                  Served(t, c) && t.finished && t.channel.closed && |t.channel.items| == |s.channel.items| - 1)
  {
    StepInv(s, Poll(c));
    StepInv(Step(s, Poll(c)), Take(c));
    StepInv(Step(Step(s, Poll(c)), Take(c)), Timeout(c));
  }

  /** In the later state connection `c` has ended because the id was closed; nothing was dropped in between. */
  predicate HasDrained(s: State, t: State, c: nat) {
    Inv(t) && t.script == s.script && t.dropped == s.dropped && c < |t.consumers| && t.consumers[c].Drained?
  }

  lemma {:induction false} Over(s: State, c: nat, n: nat)
    requires HasDrained(s, s, c)
    ensures HasDrained(s, Run(s, Rounds(c, n)), c)
  {
    if n > 0 {
      RunAppend(s, [Poll(c), Take(c), Timeout(c)], Rounds(c, n - 1));
      RunThree(s, Poll(c), Take(c), Timeout(c));
      Over(s, c, n - 1);
    }
  }

  lemma {:induction false} RoundsDrain(s: State, c: nat, n: nat)
    requires Served(s, c) && s.finished && s.channel.closed && n > |s.channel.items|
    ensures HasDrained(s, Run(s, Rounds(c, n)), c)
    decreases n
  {
    RunAppend(s, [Poll(c), Take(c), Timeout(c)], Rounds(c, n - 1));
    RunThree(s, Poll(c), Take(c), Timeout(c));
    Round(s, c);
    var t := Step(Step(Step(s, Poll(c)), Take(c)), Timeout(c));
    if s.channel.items == [] { Over(t, c, n - 1); } else { RoundsDrain(t, c, n - 1); }
  }

  /** What is left to push, the closing of the id, and `n` rounds of connection `c`. */
  function Remaining(s: State, c: nat, n: nat): seq<Action>
    requires s.next <= |s.script|
  {
    Pushes(|s.script| - s.next) + [Close] + Rounds(c, n)
  }

  lemma RemainingDrains(s: State, c: nat, n: nat)
    requires Served(s, c) && n > |s.script| - |s.delivered|
    ensures HasDrained(s, Run(s, Remaining(s, c, n)), c)
  {
    var pushes := Pushes(|s.script| - s.next);
    PushesReach(s, c, |s.script| - s.next);
    RunAppend(s, pushes + [Close], Rounds(c, n));
    RunAppend(s, pushes, [Close]);
    var pushed := Run(s, pushes);
    var closed := Step(pushed, Close);
    StepInv(pushed, Close);
    assert Run(pushed, [Close]) == Run(closed, []);
    Delivers(s, pushes);
    assert |Events(closed.delivered) + closed.channel.items| == |Accepted(closed)|;
    RoundsDrain(closed, c, n);
  }

  /** Deliveries only grow. */
  lemma {:induction false} Delivers(s: State, actions: seq<Action>)
    ensures |Run(s, actions).delivered| >= |s.delivered|
    decreases |actions|
  {
    if actions != [] { Delivers(Step(s, actions[0]), actions[1..]); }
  }

  /** From any point of any run with any number of connections at which the id is still known: if the producer goes on
      and a live connection is polled often enough, that connection ends because the id was closed, and the whole script
      was delivered. */
  lemma ServedConnectionEnds(script: seq<SseEvent>, connections: nat, actions: seq<Action>, c: nat, n: nat)
    requires var s := Run(Start(script, connections), actions);
             c < |s.consumers| && Active(s.consumers[c]) && s.channel.open && n > |script| - |s.delivered|
    ensures var s := Run(Start(script, connections), actions);
            && s.next <= |s.script|
            && (var t := Run(s, Remaining(s, c, n));
                c < |t.consumers| && t.consumers[c].Drained? && t.finished && Events(t.delivered) == script)
  {
    var s := Run(Start(script, connections), actions);
    RunInv(Start(script, connections), actions);
    RemainingDrains(s, c, n);
    var t := Run(s, Remaining(s, c, n));
    assert t.consumers[c].Drained?;
    assert Events(t.delivered) + t.channel.items == Events(t.delivered);
  }

  /** In particular a single connection, as long as it is live. */
  lemma SoleConnectionEnds(script: seq<SseEvent>, actions: seq<Action>, n: nat)
    requires var s := Run(Start(script, 1), actions);
             |s.consumers| == 1 && Active(s.consumers[0]) && n > |script| - |s.delivered|
    ensures var s := Run(Start(script, 1), actions);
            && s.next <= |s.script|
            && (var t := Run(s, Remaining(s, 0, n));
                |t.consumers| > 0 && t.consumers[0].Drained? && t.finished && Events(t.delivered) == script)
  {
    SoleRun(Start(script, 1), actions);
    ServedConnectionEnds(script, 1, actions, 0, n);
  }

  // ----- how events are lost -----

  /** Two connections, and the second is dropped before the only push: the id is cleaned up and the event goes nowhere,
      although the first connection still ends because the id was closed. */
  lemma SecondConnectionCanLoseEvents(e: SseEvent)
    ensures var s := Run(Start([e], 2), [Poll(0), Poll(1), Leave(1), Push, Close, Timeout(0)]);
            s.consumers[0].Drained? && s.delivered == []
  {
  }

  /** The second is dropped after the last push, before anybody took the event: the first finds the id gone, which is a
      normal end too, without the event. */
  lemma LateLeaveCanLoseEvents(e: SseEvent)
    ensures var actions := [Poll(1), Push, Close, Leave(1), Poll(0)];
            var s := Run(Start([e], 2), actions);
            s.consumers[0].Lost? && s.delivered == [] && !LeftEarly(Start([e], 2), actions)
  {
  }
}
