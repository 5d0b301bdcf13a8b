/**
 Graceful shutdown: which handlers the shutdown event reaches, and that those finish without any help of their peers.
 */
module ShutdownDrain {
  import opened Wrappers
  import opened Server
  import P = VoteProtocol
  import Runs

  // ---- Which receivers see the shutdown event ----

  /** A write task that keeps receiving from a log that does not grow any more, until it ends or has read everything.
      */
  function RunWriter(log: seq<Event>, cap: nat, cursor: nat): Writer
    requires cursor <= |log|
    decreases |log| - cursor
  {
    if cursor == |log| then Receiving(cursor)
    else
      var w := Received(log, cap, cursor);
      if w.Stopped? then w else RunWriter(log, cap, w.cursor)
  }

  /** The shutdown event is at position `p` and nowhere else. */
  ghost predicate ShutdownAt(log: seq<Event>, p: nat) {
    p < |log| && log[p].Shutdown? && forall i :: 0 <= i < |log| && i != p ==> !log[i].Shutdown?
  }

  /** A receiver reaches the shutdown event exactly when it subscribed before it and the event is still in the channel
      when it gets there: lagging past the event loses it. */
  lemma {:induction false} ShutdownReachedIff(log: seq<Event>, cap: nat, cursor: nat, p: nat)
    requires ShutdownAt(log, p) && cursor <= |log|
    ensures RunWriter(log, cap, cursor).Stopped? <==> cursor <= p && Oldest(log, cap) <= p
    decreases |log| - cursor
  {
    if cursor == |log| {
    } else {
      var w := Received(log, cap, cursor);
      if w.Receiving? {
        ShutdownReachedIff(log, cap, w.cursor, p);
      }
    }
  }

  /** What a write task that keeps receiving writes to its peer, until it ends or has read everything. */
  function Written(log: seq<Event>, cap: nat, cursor: nat): seq<Event>
    requires cursor <= |log|
    decreases |log| - cursor
  {
    if cursor == |log| then []
    else
      var w := Received(log, cap, cursor);
      if w.Stopped? then []
      else (if cursor < Oldest(log, cap) then [] else [log[cursor]]) + Written(log, cap, w.cursor)
  }

  /** Every event up to `stop` comes before the shutdown event, or there is none. */
  predicate StopsAt(log: seq<Event>, start: nat, stop: nat) {
    && start <= stop <= |log|
    && (forall i :: start <= i < stop ==> !log[i].Shutdown?)
    && (stop < |log| ==> log[stop].Shutdown?)
  }

  /** A peer is sent every event since its subscription, in order and once, up to the shutdown event, except those that
      the channel does not hold any more. */
  lemma {:induction false} WrittenIs(log: seq<Event>, cap: nat, cursor: nat, start: nat, stop: nat)
    requires cursor <= |log| && start == if cursor + cap < |log| then |log| - cap else cursor
    requires StopsAt(log, start, stop)
    ensures Written(log, cap, cursor) == log[start..stop]
    decreases |log| - cursor
  {
    if cursor < |log| {
      var w := Received(log, cap, cursor);
      if w.Receiving? {
        WrittenIs(log, cap, w.cursor, if start == cursor then start + 1 else start, stop);
      }
    }
  }

  // ---- Such a handler finishes ----

  /** The handler is on its way out: it has a receiver that has not passed the shutdown event, or its write task has
      ended, or its clean-up has begun. */
  predicate Leaving(s: State, id: nat, p: nat) {
    && In(s, id) && (HasVotes(s.phases[id]) <==> id in s.votes.clients)
    && match Cursor(s.phases[id])
       case Some(cursor) => cursor <= p
       case None => s.phases[id] == Serving(Stopped) || s.phases[id].Closing? || s.phases[id].Departed?
  }

  /** Steps of the handler and its write task that need neither a command nor a hang-up of the peer. */
  predicate Internal(step: Step, id: nat) {
    || step == Insert(id)
    || step == AnnounceJoin(id)
    || (step.Welcome? && step.id == id)
    || step == Receive(id)
    || step == WriteFails(id)
    || step == VoteStep(id)
    || step == Exit(id, false)
    || step == Leave(id)
    || step == AnnounceLeave(id)
  }

  /** What the handler and its write task can do without their peer, with every socket write succeeding. */
  predicate Own(step: Step, id: nat) {
    step == Subscribe(id) || (Internal(step, id) && step != WriteFails(id) && step != Welcome(id, false))
  }

  /** The handler has not sent its own join event yet. */
  predicate JoinAhead(phase: Phase) {
    phase.Subscribed? || phase.Joined?
  }

  /** A receiver of the handler can still get at the shutdown event: it is in the channel, and stays there when the
      handler sends its own join event. */
  predicate StillHeld(s: State, id: nat, p: nat)
    requires In(s, id)
  {
    Cursor(s.phases[id]).Some? ==> |s.log| + (if JoinAhead(s.phases[id]) then 1 else 0) <= s.cap + p
  }

  /** How far the handler is from having finished. */
  function Distance(s: State, id: nat, p: nat): nat
    requires Leaving(s, id, p)
  {
    (if id in s.votes.clients then P.StepsLeft(s.votes.clients[id].pc) else 0) +
    match s.phases[id]
    case Subscribed(cursor) => 33 + (p - cursor)
    case Joined(cursor, _) => 32 + (p - cursor)
    case Announced(cursor, _) => 31 + (p - cursor)
    case Serving(Receiving(cursor)) => 30 + (p - cursor)
    case Serving(Stopped) => 20
    case Closing => 10
    case _ => 1
  }

  /** As long as it has not finished, the handler can take a step by itself, with its socket writes succeeding. */
  lemma AlwaysCanStep(s: State, id: nat, p: nat) returns (step: Step)
    requires Inv(s) && ShutdownAt(s.log, p) && Leaving(s, id, p)
    ensures Internal(step, id) && Own(step, id) && Enabled(s, step)
  {
    match s.phases[id]
    case Subscribed(_) => step := Insert(id);
    case Joined(_, _) => step := AnnounceJoin(id);
    case Announced(_, _) => step := Welcome(id, true);
    case Departed => step := AnnounceLeave(id);
    case Closing =>
      assert P.ClientFits(s.votes, s.votes.clients[id]);
      step := if s.votes.clients[id].pc.Gone? then Leave(id) else VoteStep(id);
    case Serving(writer) =>
      assert P.ClientFits(s.votes, s.votes.clients[id]);
      step := if !s.votes.clients[id].pc.Idle? then VoteStep(id)
              else if writer.Stopped? then Exit(id, false) else Receive(id);
  }

  /** The handler is still on its way out, and closer to the end than it was. */
  ghost predicate Closer(s: State, s': State, id: nat, p: nat)
    requires Leaving(s, id, p)
  {
    && Leaving(s', id, p) && StillHeld(s', id, p) && ShutdownAt(s'.log, p)
    && Distance(s', id, p) < Distance(s, id, p)
  }

  lemma EntryIsCloser(s: State, step: Step, id: nat, p: nat)
    requires VotesFit(s) && ShutdownAt(s.log, p) && Leaving(s, id, p) && StillHeld(s, id, p) && Enabled(s, step)
    requires step == Insert(id) || step == AnnounceJoin(id) || step == Welcome(id, true)
    ensures Closer(s, Do(s, step), id, p)
  {
    if step.AnnounceJoin? {
      ShutdownStays(s.log, Presence(id, true), p);
    }
  }

  lemma VoteStepIsCloser(s: State, id: nat, p: nat)
    requires P.Inv(s.votes) && ShutdownAt(s.log, p) && Leaving(s, id, p) && StillHeld(s, id, p)
    requires Enabled(s, VoteStep(id))
    ensures Closer(s, Do(s, VoteStep(id)), id, p)
  {
    assert P.ClientFits(s.votes, s.votes.clients[id]);
    P.StepsOn(s.votes, id);
  }

  lemma ServingIsCloser(s: State, step: Step, id: nat, p: nat)
    requires ShutdownAt(s.log, p) && Leaving(s, id, p) && StillHeld(s, id, p) && Enabled(s, step)
    requires step == Receive(id) || step == WriteFails(id) || step == Exit(id, false) || step == Leave(id)
    ensures Closer(s, Do(s, step), id, p)
  {
    if step.Receive? {
      ReceiveStaysBefore(s, id, p);
    }
  }

  /** Every such step brings it closer to the end, provided the shutdown event is still in the channel. */
  lemma StepsTowardsEnd(s: State, step: Step, id: nat, p: nat)
    requires VotesFit(s) && P.Inv(s.votes)
    requires ShutdownAt(s.log, p) && Leaving(s, id, p) && StillHeld(s, id, p)
    requires Internal(step, id) && Enabled(s, step)
    ensures In(Do(s, step), id)
    ensures
      || (step == AnnounceLeave(id) && Do(s, step).phases[id] == Finished(true))
      || (step == Welcome(id, false) && Do(s, step).phases[id] == Finished(false))
      || Closer(s, Do(s, step), id, p)
  {
    match step
    case Insert(_) => EntryIsCloser(s, step, id, p);
    case AnnounceJoin(_) => EntryIsCloser(s, step, id, p);
    case Welcome(_, ok) => if ok { EntryIsCloser(s, step, id, p); }
    case VoteStep(_) => VoteStepIsCloser(s, id, p);
    case AnnounceLeave(_) =>
    case _ => ServingIsCloser(s, step, id, p);
  }

  lemma ShutdownStays(log: seq<Event>, event: Event, p: nat)
    requires ShutdownAt(log, p) && !event.Shutdown?
    ensures ShutdownAt(log + [event], p)
  {
  }

  lemma ReceiveStaysBefore(s: State, id: nat, p: nat)
    requires CanReceive(s, id) && ShutdownAt(s.log, p) && StillHeld(s, id, p)
    requires s.phases[id].writer.cursor <= p
    ensures
      var w := Received(s.log, s.cap, s.phases[id].writer.cursor);
      w.Stopped? || s.phases[id].writer.cursor < w.cursor <= p
  {
  }

  /** What others do leaves the distance alone. */
  lemma OthersDoNotDelay(s: State, step: Step, id: nat, p: nat)
    requires Leaving(s, id, p) && Enabled(s, step) && Touched(s, step) != id
    ensures Leaving(Do(s, step), id, p) && Distance(Do(s, step), id, p) == Distance(s, id, p)
  {
    TouchesOnePhase(s, step, id);
    TouchesOneVote(s, step, id);
  }

  ghost predicate OwnNext(id: nat, s: State, s': State) {
    exists step :: Own(step, id) && Enabled(s, step) && s' == Do(s, step)
  }

  /** The handler finishes by its own steps. */
  ghost predicate FinishesAlone(s: State, id: nat) {
    exists s' :: Runs.Leads((a, b) => OwnNext(id, a, b), s, s') && In(s', id) && s'.phases[id] == Finished(true)
  }

  lemma OwnStep(s: State, id: nat, p: nat) returns (s': State)
    requires Inv(s) && ShutdownAt(s.log, p) && Leaving(s, id, p) && StillHeld(s, id, p)
    ensures OwnNext(id, s, s') && Inv(s') && In(s', id)
    ensures s'.phases[id] == Finished(true) || Closer(s, s', id, p)
  {
    var step := AlwaysCanStep(s, id, p);
    StepsTowardsEnd(s, step, id, p);
    InvStep(s, step);
    s' := Do(s, step);
  }

  lemma {:induction false} HandlerDrains(s0: State, s: State, id: nat, p: nat) returns (s': State)
    requires Inv(s) && Runs.Leads((a, b) => OwnNext(id, a, b), s0, s)
    requires ShutdownAt(s.log, p) && Leaving(s, id, p) && StillHeld(s, id, p)
    ensures Runs.Leads((a, b) => OwnNext(id, a, b), s0, s') && In(s', id) && s'.phases[id] == Finished(true)
    decreases Distance(s, id, p)
  {
    s' := OwnStep(s, id, p);
    Runs.LeadsOn((a, b) => OwnNext(id, a, b), s0, s, s');
    if s'.phases[id] != Finished(true) {
      s' := HandlerDrains(s0, s', id, p);
    }
  }

  // ---- Any other handler never does ----

  /** The handler cannot get at the shutdown event any more: it has not subscribed yet, or its receiver is past the
      event, or lags past it. */
  ghost predicate Stuck(s: State, id: nat, p: nat) {
    && In(s, id) && ShutdownAt(s.log, p) && !s.main.Accepting?
    && (s.phases[id].Spawned? ||
        (Cursor(s.phases[id]).Some? && (Cursor(s.phases[id]).value > p || !StillHeld(s, id, p))))
  }

  /** The steps that end a handler which the shutdown event does not reach: its peer hangs up, or a write fails. */
  predicate ByPeer(step: Step, id: nat) {
    step == Exit(id, true) || step == WriteFails(id) || step == Welcome(id, false)
  }

  lemma StuckAlone(s: State, step: Step, id: nat, p: nat)
    requires Stuck(s, id, p) && Enabled(s, step) && Touched(s, step) == id != 0 && !ByPeer(step, id)
    requires IdsFit(s)
    ensures Stuck(Do(s, step), id, p)
  {
    if step.AnnounceJoin? {
      ShutdownStays(s.log, Presence(id, true), p);
    }
  }

  lemma StuckAmongOthers(s: State, step: Step, id: nat, p: nat)
    requires Stuck(s, id, p) && Enabled(s, step) && Touched(s, step) != id
    ensures Stuck(Do(s, step), id, p)
  {
    TouchesOnePhase(s, step, id);
    if Do(s, step).log != s.log {
      ShutdownStays(s.log, Do(s, step).log[|s.log|], p);
    }
  }

  /** It stays so whatever anyone does, unless its peer hangs up or a write to it fails. */
  lemma StuckStays(s: State, step: Step, id: nat, p: nat)
    requires Inv(s) && Stuck(s, id, p) && Enabled(s, step) && !ByPeer(step, id)
    ensures Stuck(Do(s, step), id, p)
  {
    assert 1 <= id;
    if Touched(s, step) == id {
      StuckAlone(s, step, id, p);
    } else {
      StuckAmongOthers(s, step, id, p);
    }
  }

  ghost predicate NextWithoutPeer(id: nat, s: State, s': State) {
    exists step :: Enabled(s, step) && !ByPeer(step, id) && s' == Do(s, step)
  }

  /** Then the handler never finishes, and the server never returns. */
  lemma StuckForGood(s: State, s': State, id: nat, p: nat)
    requires Inv(s) && Stuck(s, id, p) && Runs.Leads((a, b) => NextWithoutPeer(id, a, b), s, s')
    ensures Stuck(s', id, p) && In(s', id) && !s'.phases[id].Finished? && !s'.main.Ended?
  {
    var next := (a, b) => NextWithoutPeer(id, a, b);
    var good := t => Inv(t) && Stuck(t, id, p);
    forall s0, s1 | good(s0) && next(s0, s1) ensures good(s1) {
      var step :| Enabled(s0, step) && !ByPeer(step, id) && s1 == Do(s0, step);
      InvStep(s0, step);
      StuckStays(s0, step, id, p);
    }
    Runs.AlwaysFrom(next, good, s, s');
    assert id in Live(s'.phases) && id in s'.handles;
  }

  lemma OwnIsWithoutPeer(s: State, s': State, id: nat)
    requires Runs.Leads((a, b) => OwnNext(id, a, b), s, s')
    ensures Runs.Leads((a, b) => NextWithoutPeer(id, a, b), s, s')
  {
    var own, next := (a, b) => OwnNext(id, a, b), (a, b) => NextWithoutPeer(id, a, b);
    var tr :| Runs.IsPath(own, tr) && tr[0] == s && tr[|tr| - 1] == s';
    forall i, j | 0 <= i && j == i + 1 < |tr| ensures next(tr[i], tr[j]) {
      assert own(tr[i], tr[j]);
    }
    assert Runs.IsPath(next, tr);
  }

  /** After the accept loop has ended the shutdown event is in the log, once. A handler that has not finished then
      finishes by its own steps if and only if the event reaches it: its receiver has neither passed the event nor lags
      past it, or it has left its read loop already. */
  lemma ShutdownDrainsIff(s: State, id: nat) returns (p: nat)
    requires Reachable(s) && !s.main.Accepting? && In(s, id) && !s.phases[id].Finished?
    ensures ShutdownAt(s.log, p)
    ensures FinishesAlone(s, id) <==> Leaving(s, id, p) && StillHeld(s, id, p)
  {
    ReachableInv(s);
    p :| 0 <= p < |s.log| && s.log[p] == Shutdown;
    if Leaving(s, id, p) && StillHeld(s, id, p) {
      Runs.Stay((a, b) => OwnNext(id, a, b), s);
      var s' := HandlerDrains(s, s, id, p);
    } else {
      assert HasVotes(s.phases[id]) <==> id in s.votes.clients;
      assert Stuck(s, id, p);
      forall s' | Runs.Leads((a, b) => OwnNext(id, a, b), s, s') && In(s', id) ensures s'.phases[id] != Finished(true) {
        OwnIsWithoutPeer(s, s', id);
        StuckForGood(s, s', id, p);
      }
    }
  }

  lemma WithoutReceiver(s: State, step: Step, id: nat)
    requires Reachable(s) && !s.main.Accepting? && In(s, id) && Enabled(s, step)
    requires step == Exit(id, true) || step == WriteFails(id)
    ensures FinishesAlone(Do(s, step), id)
  {
    var s' := Reach(s, step);
    ReachableInv(s');
    var p := ShutdownDrainsIff(s', id);
    assert id in s'.votes.clients;
  }

  /** The peer's hang-up at the read loop, and a failed write of an event, end every handler, whatever its receiver can
      still reach: it finishes from there by its own steps. A failed Welcome ends it at once. */
  lemma PeerEnds(s: State, id: nat)
    requires Reachable(s) && !s.main.Accepting? && In(s, id)
    ensures AtLoop(s, id) ==> Enabled(s, Exit(id, true)) && FinishesAlone(Do(s, Exit(id, true)), id)
    ensures HearsEvent(s, id) ==> Enabled(s, WriteFails(id)) && FinishesAlone(Do(s, WriteFails(id)), id)
    ensures s.phases[id].Announced? ==>
              Enabled(s, Welcome(id, false)) && Do(s, Welcome(id, false)).phases[id] == Finished(false)
  {
    ReachableInv(s);
    if AtLoop(s, id) {
      WithoutReceiver(s, Exit(id, true), id);
    }
    if HearsEvent(s, id) {
      WithoutReceiver(s, WriteFails(id), id);
    }
  }

  /** The write task is about to write an event other than the shutdown to its peer. */
  predicate HearsEvent(s: State, id: nat) {
    && In(s, id) && s.phases[id].Serving? && s.phases[id].writer.Receiving?
    && var cursor := s.phases[id].writer.cursor;
       Oldest(s.log, s.cap) <= cursor < |s.log| && !s.log[cursor].Shutdown?
  }

  /** The event does not reach every client: one that is admitted before the shutdown and subscribes after it is left
      out, and keeps the server from returning as long as it stays connected. */
  lemma ShutdownMissed() returns (s: State)
    ensures Reachable(s) && s.main.Draining? && Stuck(s, 1, 0) && !FinishesAlone(s, 1)
  {
    s := State(MAX_CONNECTIONS, 1, [], Accepting, map[], map[], [], 524288, P.State([0, 0, 0, 0], 0, map[]));
    Runs.Start(Init, Next, s);
    s := Reach(s, Accept);
    s := Reach(s, CtrlC);
    s := Reach(s, Subscribe(1));
    assert s.log == [Shutdown] && s.phases == map[1 := Subscribed(1)];
    var p := ShutdownDrainsIff(s, 1);
  }
}
