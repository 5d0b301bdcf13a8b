/**
 The member count a terminal client keeps from the Welcome line and the Presence events it receives, and the number it
 shows, one less, compared with the room's member map.
 */
module Replica {
  import opened Sets
  import opened Wrappers
  import opened Server
  import Runs

  /** What one event does to the count. */
  function Updated(count: nat, event: Event): nat {
    match event
    case Presence(_, joined) => if joined then count + 1 else if count > 0 then count - 1 else 0
    case _ => count
  }

  /** The count after a sequence of events. */
  function Kept(count: nat, events: seq<Event>): nat {
    if events == [] then count
    else Updated(Kept(count, events[..|events| - 1]), events[|events| - 1])
  }

  /** The number in the title: the count without the client's own second mention, subtracted unchecked.
      `None` is the underflow at zero. */
  function Title(count: nat): Option<nat> {
    if count == 0 then None else Some(count - 1)
  }

  /** The part of the client's state that the network task keeps for the member count. */
  class AppState {
    var clientCount: nat

    constructor ()
      ensures clientCount == 0 && Title(clientCount).None?
    {
      clientCount := 0;
    }

    /** The network task: the Welcome line first, then every event of the room. */
    method Receive(peerCount: nat, events: seq<Event>)
      modifies this
      ensures clientCount == Kept(peerCount, events)
    {
      clientCount := peerCount;
      for i := 0 to |events|
        invariant clientCount == Kept(peerCount, events[..i])
      {
        assert events[..i + 1][..i] == events[..i];
        match events[i]
        case Presence(_, joined) =>
          if joined {
            clientCount := clientCount + 1;
          } else {
            clientCount := if clientCount > 0 then clientCount - 1 else 0;
          }
        case Shutdown =>
        case Other =>
      }
      assert events[..|events|] == events;
    }
  }

  // ---- The log and the member map ----

  predicate HasInserted(phase: Phase) {
    !phase.Spawned? && !phase.Subscribed?
  }

  predicate HasAnnounced(phase: Phase) {
    HasInserted(phase) && !phase.Joined?
  }

  predicate HasRemoved(phase: Phase) {
    phase.Departed? || phase == Finished(true)
  }

  function Inserted(s: State): set<nat> {
    set id | id in s.phases && HasInserted(s.phases[id])
  }

  function Removed(s: State): set<nat> {
    set id | id in s.phases && HasRemoved(s.phases[id])
  }

  /** The ids whose Presence event, of the given kind, is in a sequence of events. */
  function AnnouncedIds(events: seq<Event>, joined: bool): set<nat> {
    set i | 0 <= i < |events| && events[i].Presence? && events[i].joined == joined :: events[i].id
  }

  /** No Presence event comes twice, and no id leaves before it joined. */
  ghost predicate PresenceOnce(log: seq<Event>) {
    && (forall i, j :: 0 <= i < j < |log| && log[i].Presence? ==> log[i] != log[j])
    && (forall i :: 0 <= i < |log| && log[i].Presence? && !log[i].joined ==> log[i].id in AnnouncedIds(log[..i], true))
  }

  /** The join event of a handler is in the log from its announcement on, its leave event from its end. */
  ghost predicate PresenceMatches(s: State) {
    && (forall id: nat :: id in AnnouncedIds(s.log, true) <==> id in s.phases && HasAnnounced(s.phases[id]))
    && (forall id: nat :: id in AnnouncedIds(s.log, false) <==> id in s.phases && s.phases[id] == Finished(true))
  }

  ghost predicate PresenceFits(s: State) {
    PresenceOnce(s.log) && PresenceMatches(s)
  }

  lemma AnnouncedGrows(log: seq<Event>, event: Event, joined: bool)
    ensures AnnouncedIds(log + [event], joined) ==
            AnnouncedIds(log, joined) + if event.Presence? && event.joined == joined then {event.id} else {}
  {
    var longer := log + [event];
    assert forall i :: 0 <= i < |log| ==> longer[i] == log[i];
    assert longer[|log|] == event;
    forall id | id in AnnouncedIds(log, joined) ensures id in AnnouncedIds(longer, joined) {
      var i :| 0 <= i < |log| && log[i].Presence? && log[i].joined == joined && log[i].id == id;
      assert longer[i].id == id;
    }
  }

  lemma OnceKept(log: seq<Event>, event: Event)
    requires PresenceOnce(log)
    requires event.Presence? ==> event.id !in AnnouncedIds(log, event.joined)
    requires event.Presence? && !event.joined ==> event.id in AnnouncedIds(log, true)
    ensures PresenceOnce(log + [event])
  {
    var longer := log + [event];
    forall i | 0 <= i < |longer| && longer[i].Presence? && !longer[i].joined
      ensures longer[i].id in AnnouncedIds(longer[..i], true)
    {
      assert longer[..i] == log[..i];
      assert log[..|log|] == log;
    }
    forall i, j | 0 <= i < j < |longer| && longer[i].Presence? ensures longer[i] != longer[j] {
      assert log[i].id in AnnouncedIds(log, log[i].joined);
    }
  }

  /** The event a step appends to the log. */
  function Emitted(step: Step): seq<Event> {
    match step
    case CtrlC => [Shutdown]
    case Broadcast => [Other]
    case AnnounceJoin(id) => [Presence(id, true)]
    case AnnounceLeave(id) => [Presence(id, false)]
    case _ => []
  }

  lemma LogGrows(s: State, step: Step)
    requires Enabled(s, step)
    ensures Do(s, step).log == s.log + Emitted(step)
  {
  }

  lemma PhasesAnnounce(s: State, step: Step, id: nat)
    requires IdsFit(s) && Enabled(s, step)
    ensures (id in Do(s, step).phases && HasAnnounced(Do(s, step).phases[id])) <==>
            (id in s.phases && HasAnnounced(s.phases[id])) || step == AnnounceJoin(id)
  {
    if id != Touched(s, step) {
      TouchesOnePhase(s, step, id);
    }
  }

  lemma PhasesFinish(s: State, step: Step, id: nat)
    requires IdsFit(s) && Enabled(s, step)
    ensures (id in Do(s, step).phases && Do(s, step).phases[id] == Finished(true)) <==>
            (id in s.phases && s.phases[id] == Finished(true)) || step == AnnounceLeave(id)
  {
    if id != Touched(s, step) {
      TouchesOnePhase(s, step, id);
    }
  }

  lemma AnnouncedByStep(s: State, step: Step, id: nat)
    requires Enabled(s, step)
    ensures id in AnnouncedIds(Do(s, step).log, true) <==> id in AnnouncedIds(s.log, true) || step == AnnounceJoin(id)
    ensures id in AnnouncedIds(Do(s, step).log, false) <==>
            id in AnnouncedIds(s.log, false) || step == AnnounceLeave(id)
  {
    LogGrows(s, step);
    if Emitted(step) == [] {
      assert s.log + [] == s.log;
    } else {
      AnnouncedGrows(s.log, Emitted(step)[0], true);
      AnnouncedGrows(s.log, Emitted(step)[0], false);
    }
  }

  lemma MatchesKept(s: State, step: Step)
    requires PresenceMatches(s) && IdsFit(s) && Enabled(s, step)
    ensures PresenceMatches(Do(s, step))
  {
    var s' := Do(s, step);
    forall id: nat
      ensures id in AnnouncedIds(s'.log, true) <==> id in s'.phases && HasAnnounced(s'.phases[id])
      ensures id in AnnouncedIds(s'.log, false) <==> id in s'.phases && s'.phases[id] == Finished(true)
    {
      PhasesAnnounce(s, step, id);
      PhasesFinish(s, step, id);
      AnnouncedByStep(s, step, id);
    }
  }

  lemma PresenceKept(s: State, step: Step)
    requires PresenceFits(s) && IdsFit(s) && Enabled(s, step)
    ensures PresenceFits(Do(s, step))
  {
    MatchesKept(s, step);
    LogGrows(s, step);
    if Emitted(step) != [] {
      OnceKept(s.log, Emitted(step)[0]);
    }
  }

  ghost predicate RoomInv(s: State) {
    Inv(s) && PresenceFits(s)
  }

  lemma ReachableRoomInv(s: State)
    requires Reachable(s)
    ensures RoomInv(s)
  {
    forall s0 | Init(s0) ensures RoomInv(s0) {
      InvInit(s0);
    }
    forall s0, s1 | RoomInv(s0) && Next(s0, s1) ensures RoomInv(s1) {
      var step :| Enabled(s0, step) && s1 == Do(s0, step);
      InvStep(s0, step);
      PresenceKept(s0, step);
    }
    Runs.Always(Init, Next, RoomInv, s);
  }

  /** What only grows along a run. */
  ghost predicate Later(s: State, s': State) {
    s.log <= s'.log && Inserted(s) <= Inserted(s') && Removed(s) <= Removed(s')
  }

  ghost predicate LaterRoom(s: State, t: State) {
    RoomInv(t) && Later(s, t)
  }

  lemma LaterAlong(s: State, s': State)
    requires RoomInv(s) && Runs.Leads(Next, s, s')
    ensures LaterRoom(s, s')
  {
    var good := t => LaterRoom(s, t);
    forall s0, s1 | good(s0) && Next(s0, s1) ensures good(s1) {
      LaterNext(s, s0, s1);
    }
    Runs.AlwaysFrom(Next, good, s, s');
  }

  lemma LaterNext(s: State, s0: State, s1: State)
    requires LaterRoom(s, s0) && Next(s0, s1)
    ensures LaterRoom(s, s1)
  {
    var step :| Enabled(s0, step) && s1 == Do(s0, step);
    InvStep(s0, step);
    PresenceKept(s0, step);
    LogGrows(s0, step);
    InsertedGrows(s0, step);
    RemovedGrows(s0, step);
  }

  lemma InsertedGrows(s: State, step: Step)
    requires IdsFit(s) && Enabled(s, step)
    ensures Inserted(s) <= Inserted(Do(s, step))
  {
  }

  lemma RemovedGrows(s: State, step: Step)
    requires IdsFit(s) && Enabled(s, step)
    ensures Removed(s) <= Removed(Do(s, step))
  {
  }

  lemma MembersCounted(s: State)
    requires MembersFit(s)
    ensures |s.members| == |Inserted(s)| - |Removed(s)|
  {
    RemovedWereInserted(s);
    DifferenceSize(Inserted(s), Removed(s));
    MembersAreSet(s);
    assert |s.members| == |s.members.Keys|;
  }

  lemma RemovedWereInserted(s: State)
    ensures Removed(s) <= Inserted(s)
  {
  }

  lemma MembersAreSet(s: State)
    requires MembersFit(s)
    ensures s.members.Keys == Inserted(s) - Removed(s)
  {
  }

  // ---- Counting events ----

  /** The count an unsaturated counter would show. */
  function Net(count: nat, events: seq<Event>): int {
    if events == [] then count
    else
      Net(count, events[..|events| - 1]) +
      match events[|events| - 1]
      case Presence(_, joined) => if joined then 1 else -1
      case _ => 0
  }

  /** The count never had to stop at zero. */
  predicate NoSaturation(count: nat, events: seq<Event>) {
    forall k :: 0 <= k <= |events| ==> Net(count, events[..k]) >= 0
  }

  lemma {:induction false} KeptIsNet(count: nat, events: seq<Event>)
    requires NoSaturation(count, events)
    ensures Kept(count, events) == Net(count, events)
    decreases |events|
  {
    assert events[..|events|] == events;
    if events == [] {
    } else {
      var front := events[..|events| - 1];
      forall k | 0 <= k <= |front| ensures Net(count, front[..k]) >= 0 {
        assert front[..k] == events[..k];
      }
      KeptIsNet(count, front);
    }
  }

  /** A sequence of events without repeated Presence events changes the count by the joins and leaves in it. */
  lemma {:induction false} NetCounts(count: nat, events: seq<Event>)
    requires forall i, j :: 0 <= i < j < |events| && events[i].Presence? ==> events[i] != events[j]
    ensures Net(count, events) == count + |AnnouncedIds(events, true)| - |AnnouncedIds(events, false)|
    decreases |events|
  {
    if events == [] {
    } else {
      var n := |events| - 1;
      var front := events[..n];
      NetCounts(count, front);
      assert events == front + [events[n]];
      AnnouncedSizes(front, events[n]);
    }
  }

  lemma NotYet(front: seq<Event>, event: Event)
    requires event.Presence? && event.id in AnnouncedIds(front, event.joined)
    ensures event in front
  {
  }

  lemma AnnouncedSizes(front: seq<Event>, event: Event)
    requires event.Presence? ==> event !in front
    ensures |AnnouncedIds(front + [event], true)| - |AnnouncedIds(front + [event], false)| ==
            |AnnouncedIds(front, true)| - |AnnouncedIds(front, false)| +
            match event
            case Presence(_, joined) => if joined then 1 else -1
            case _ => 0
  {
    if event.Presence? && event.id in AnnouncedIds(front, event.joined) {
      NotYet(front, event);
    }
    AnnouncedGrows(front, event, true);
    AnnouncedGrows(front, event, false);
  }

  // ---- Saturation and lag ----

  /** How many leaves found the count at zero already. */
  function Saturated(count: nat, events: seq<Event>): nat {
    if events == [] then 0
    else
      var front, last := events[..|events| - 1], events[|events| - 1];
      Saturated(count, front) + if last.Presence? && !last.joined && Kept(count, front) == 0 then 1 else 0
  }

  lemma {:induction false} KeptAndSaturated(count: nat, events: seq<Event>)
    ensures Kept(count, events) == Net(count, events) + Saturated(count, events)
    decreases |events|
  {
    if events == [] {
    } else {
      KeptAndSaturated(count, events[..|events| - 1]);
    }
  }

  /** The events that reach a receiver; those whose mark is off are dropped while it lags. */
  function Heard(events: seq<Event>, marks: seq<bool>): (heard: seq<Event>)
    requires |marks| == |events|
    ensures forall e :: e in heard ==> e in events
  {
    if events == [] then []
    else
      var n := |events| - 1;
      var front := Heard(events[..n], marks[..n]);
      if marks[n] then front + [events[n]] else front
  }

  function Others(marks: seq<bool>): (others: seq<bool>)
    ensures |others| == |marks| && forall i :: 0 <= i < |marks| ==> others[i] == !marks[i]
  {
    seq(|marks|, i requires 0 <= i < |marks| => !marks[i])
  }

  function Missed(events: seq<Event>, marks: seq<bool>): seq<Event>
    requires |marks| == |events|
  {
    Heard(events, Others(marks))
  }

  lemma NetAppend(count: nat, events: seq<Event>, event: Event)
    ensures Net(count, events + [event]) == Net(count, events) +
            match event
            case Presence(_, joined) => if joined then 1 else -1
            case _ => 0
  {
    assert (events + [event])[..|events|] == events;
  }

  lemma {:induction false} NetSplit(count: nat, events: seq<Event>, marks: seq<bool>)
    requires |marks| == |events|
    ensures Net(count, events) == Net(count, Heard(events, marks)) + Net(0, Missed(events, marks))
    decreases |events|
  {
    if events == [] {
    } else {
      var n := |events| - 1;
      NetSplit(count, events[..n], marks[..n]);
      assert Others(marks)[..n] == Others(marks[..n]);
      if marks[n] {
        NetAppend(count, Heard(events[..n], marks[..n]), events[n]);
      } else {
        NetAppend(0, Missed(events[..n], marks[..n]), events[n]);
      }
    }
  }

  ghost predicate NoRepeats(events: seq<Event>) {
    forall i, j :: 0 <= i < j < |events| && events[i].Presence? ==> events[i] != events[j]
  }

  lemma {:induction false} HeardOnce(events: seq<Event>, marks: seq<bool>)
    requires |marks| == |events| && NoRepeats(events)
    ensures NoRepeats(Heard(events, marks))
    decreases |events|
  {
    if events == [] {
    } else {
      var n := |events| - 1;
      HeardOnce(events[..n], marks[..n]);
      var front := Heard(events[..n], marks[..n]);
      var heard := Heard(events, marks);
      assert events[n].Presence? ==> events[n] !in front;
      forall i, j | 0 <= i < j < |heard| && heard[i].Presence? ensures heard[i] != heard[j] {
        assert heard[i] == front[i] && front[i] in front;
        assert j < |front| ==> heard[j] == front[j];
      }
    }
  }

  /** The number a receiver's events add to the count: the joins and leaves of all events, less those it missed. */
  lemma NetOfHeard(count: nat, events: seq<Event>, marks: seq<bool>)
    requires |marks| == |events| && NoRepeats(events)
    ensures Net(count, Heard(events, marks)) ==
            count + |AnnouncedIds(events, true)| - |AnnouncedIds(events, false)|
            - |AnnouncedIds(Missed(events, marks), true)| + |AnnouncedIds(Missed(events, marks), false)|
  {
    NetSplit(count, events, marks);
    NetCounts(count, events);
    HeardOnce(events, Others(marks));
    NetCounts(0, Missed(events, marks));
  }

  // ---- Main results ----

  /** The handlers in `t` that a later receiver still hears joining, although they were in the map already. */
  function LateJoins(t: State, events: seq<Event>): set<nat> {
    Inserted(t) * AnnouncedIds(events, true)
  }

  /** The handlers that a later receiver still hears leaving, although they were out of the map already. */
  function LateLeaves(t: State, events: seq<Event>): set<nat> {
    Removed(t) * AnnouncedIds(events, false)
  }

  /** No change of the member map is still to be announced. */
  predicate NoneInFlight(s: State) {
    forall id :: id in s.phases ==> !s.phases[id].Joined? && !s.phases[id].Departed?
  }

  /** The client `x` subscribes at `start`, its handler takes the step from `t` that inserts it into the map, and
      everything in the log up to `s` reaches it. */
  ghost predicate Session(t: State, s: State, x: nat, start: nat) {
    && Reachable(t) && Enabled(t, Insert(x)) && t.phases[x] == Subscribed(start)
    && Runs.Leads(Next, Do(t, Insert(x)), s)
    && start <= |s.log|
  }

  lemma AnnouncedSplit(log: seq<Event>, start: nat, joined: bool)
    requires PresenceOnce(log) && start <= |log|
    ensures AnnouncedIds(log[start..], joined) == AnnouncedIds(log, joined) - AnnouncedIds(log[..start], joined)
  {
    var a, b := AnnouncedIds(log[..start], joined), AnnouncedIds(log[start..], joined);
    forall id | id in AnnouncedIds(log, joined) ensures id in a || id in b {
      var i :| 0 <= i < |log| && log[i].Presence? && log[i].joined == joined && log[i].id == id;
      assert i < start ==> log[..start][i].id == id;
      assert i >= start ==> log[start..][i - start].id == id;
    }
    forall id | id in b ensures id in AnnouncedIds(log, joined) && id !in a {
      var i :| start <= i < |log| && log[i] == Presence(id, joined);
      assert forall j :: 0 <= j < start ==> log[j] != log[i];
    }
  }

  /** A set that grows from `early` to `late`, minus something that was there early. */
  lemma LateSize(early: set<nat>, late: set<nat>, before: set<nat>)
    requires early <= late && before <= early
    ensures |late - before| == |late| - |early| + |early * (late - before)|
  {
    var rest := late - before;
    DifferenceSize(late, early);
    assert rest == (late - early) + (early * rest);
  }

  lemma JoinsHeard(t: State, s: State, start: nat)
    requires RoomInv(t) && LaterRoom(t, s) && start <= |t.log| && NoneInFlight(s)
    ensures |AnnouncedIds(s.log[start..], true)| ==
            |Inserted(s)| - |Inserted(t)| + |LateJoins(t, s.log[start..])|
  {
    AnnouncedSplit(s.log, start, true);
    assert s.log[..start] == t.log[..start];
    assert AnnouncedIds(s.log, true) == Inserted(s);
    assert AnnouncedIds(t.log[..start], true) <= AnnouncedIds(t.log, true) <= Inserted(t) by {
      PrefixAnnounced(t.log, start, true);
    }
    LateSize(Inserted(t), Inserted(s), AnnouncedIds(t.log[..start], true));
  }

  lemma PrefixAnnounced(log: seq<Event>, start: nat, joined: bool)
    requires start <= |log|
    ensures AnnouncedIds(log[..start], joined) <= AnnouncedIds(log, joined)
  {
    forall id | id in AnnouncedIds(log[..start], joined) ensures id in AnnouncedIds(log, joined) {
      var i :| 0 <= i < start && log[i] == Presence(id, joined);
    }
  }

  lemma LeavesHeard(t: State, s: State, start: nat)
    requires RoomInv(t) && LaterRoom(t, s) && start <= |t.log| && NoneInFlight(s)
    ensures |AnnouncedIds(s.log[start..], false)| ==
            |Removed(s)| - |Removed(t)| + |LateLeaves(t, s.log[start..])|
  {
    AnnouncedSplit(s.log, start, false);
    assert s.log[..start] == t.log[..start];
    assert AnnouncedIds(s.log, false) == Removed(s);
    assert AnnouncedIds(t.log[..start], false) <= AnnouncedIds(t.log, false) <= Removed(t) by {
      PrefixAnnounced(t.log, start, false);
    }
    LateSize(Removed(t), Removed(s), AnnouncedIds(t.log[..start], false));
  }

  lemma SessionLater(t: State, s: State, x: nat, start: nat)
    requires Session(t, s, x, start)
    ensures RoomInv(t) && LaterRoom(t, s) && start <= |t.log|
  {
    ReachableRoomInv(t);
    assert Cursor(t.phases[x]).Some?;
    InvStep(t, Insert(x));
    PresenceKept(t, Insert(x));
    LaterAlong(Do(t, Insert(x)), s);
    InsertedGrows(t, Insert(x));
    RemovedGrows(t, Insert(x));
  }

  /** Once every change of the member map has been announced and what reached the receiver has been received, the count
      less one (the client's own join is counted in its Welcome and heard again, and the title takes one off) is the
      room size, plus the joins and minus the leaves announced to it although they were in the map before its own
      insertion, minus the joins and plus the leaves it missed while it lagged, plus the leaves that found the count at
      zero. */
  lemma ReplicaDrift(t: State, s: State, x: nat, start: nat, marks: seq<bool>)
    requires Session(t, s, x, start) && NoneInFlight(s)
    requires |marks| == |s.log| - start
    ensures Do(t, Insert(x)).phases[x].count == |t.members| + 1
    ensures
      var n, events := |t.members| + 1, s.log[start..];
      Kept(n, Heard(events, marks)) - 1 ==
      |s.members| + |LateJoins(t, events)| - |LateLeaves(t, events)|
      - |AnnouncedIds(Missed(events, marks), true)| + |AnnouncedIds(Missed(events, marks), false)|
      + Saturated(n, Heard(events, marks))
  {
    SessionLater(t, s, x, start);
    JoinNeverOverwrites(t, x);
    OnceInTail(s.log, start);
    KeptAndSaturated(|t.members| + 1, Heard(s.log[start..], marks));
    NetOfHeard(|t.members| + 1, s.log[start..], marks);
    JoinsHeard(t, s, start);
    LeavesHeard(t, s, start);
    MembersCounted(t);
    MembersCounted(s);
  }

  lemma OnceInTail(log: seq<Event>, start: nat)
    requires PresenceOnce(log) && start <= |log|
    ensures NoRepeats(log[start..])
  {
    var tail := log[start..];
    forall i, j | 0 <= i < j < |tail| && tail[i].Presence? ensures tail[i] != tail[j] {
      assert tail[i] == log[start + i] && tail[j] == log[start + j];
    }
  }

  lemma {:induction false} HeardAll(events: seq<Event>, marks: seq<bool>)
    requires |marks| == |events| && forall i :: 0 <= i < |marks| ==> marks[i]
    ensures Heard(events, marks) == events && Missed(events, marks) == []
    decreases |events|
  {
    if events == [] {
    } else {
      var n := |events| - 1;
      HeardAll(events[..n], marks[..n]);
      assert Others(marks)[..n] == Others(marks[..n]);
      assert events == events[..n] + [events[n]];
    }
  }

  /** For a receiver that never lags and never stops at zero only the late joins and leaves remain. */
  lemma DriftWithoutLag(t: State, s: State, x: nat, start: nat)
    requires Session(t, s, x, start) && NoneInFlight(s)
    requires NoSaturation(|t.members| + 1, s.log[start..])
    ensures Kept(|t.members| + 1, s.log[start..]) - 1 ==
            |s.members| + |LateJoins(t, s.log[start..])| - |LateLeaves(t, s.log[start..])|
  {
    var n, events := |t.members| + 1, s.log[start..];
    var marks := seq(|events|, _ => true);
    ReplicaDrift(t, s, x, start, marks);
    HeardAll(events, marks);
    KeptIsNet(n, events);
    KeptAndSaturated(n, events);
  }

  /** Whoever is heard leaving had joined before the receiver started, or was heard joining. */
  lemma HeardLeaving(log: seq<Event>, start: nat, k: nat, id: nat)
    requires PresenceOnce(log) && start + k <= |log| && id in AnnouncedIds(log[start..][..k], false)
    ensures id in AnnouncedIds(log[..start], true) || id in AnnouncedIds(log[start..][..k], true)
  {
    var events := log[start..][..k];
    var e :| 0 <= e < k && events[e] == Presence(id, false);
    var i := start + e;
    assert log[i] == Presence(id, false) && id in AnnouncedIds(log[..i], true);
    var j :| 0 <= j < i && log[..i][j] == Presence(id, true);
    if j < start {
      assert log[..start][j] == Presence(id, true);
    } else {
      assert events[j - start] == Presence(id, true);
    }
  }

  lemma NotRemoved(t: State, events: seq<Event>, k: nat, id: nat)
    requires LateLeaves(t, events) == {} && k <= |events| && id in AnnouncedIds(events[..k], false)
    ensures id !in Removed(t)
  {
    PrefixAnnounced(events, k, false);
    assert id !in LateLeaves(t, events);
  }

  /** Whoever was announced and has not left the map is in it. */
  lemma AnnouncedMember(t: State, id: nat)
    requires PresenceMatches(t) && MembersFit(t) && id in AnnouncedIds(t.log, true) && id !in Removed(t)
    ensures id in t.members
  {
    assert id in t.phases && HasAnnounced(t.phases[id]) && !HasRemoved(t.phases[id]);
  }

  lemma HeardMembers(t: State, s: State, start: nat, k: nat, id: nat)
    requires PresenceOnce(s.log) && PresenceMatches(t) && MembersFit(t)
    requires t.log <= s.log && start <= |t.log| && start + k <= |s.log|
    requires LateLeaves(t, s.log[start..]) == {} && id in AnnouncedIds(s.log[start..][..k], false)
    ensures id in t.members || id in AnnouncedIds(s.log[start..][..k], true)
  {
    HeardLeaving(s.log, start, k, id);
    NotRemoved(t, s.log[start..], k, id);
    if id in AnnouncedIds(s.log[..start], true) {
      assert s.log[..start] == t.log[..start];
      PrefixAnnounced(t.log, start, true);
      AnnouncedMember(t, id);
    }
  }

  /** Without late leaves every count from the Welcome on is at least one: it never has to stop at zero, and the
      subtraction in the title never underflows. */
  lemma NoLateLeavesNoSaturation(t: State, s: State, x: nat, start: nat)
    requires Session(t, s, x, start) && LateLeaves(t, s.log[start..]) == {}
    ensures NoSaturation(|t.members| + 1, s.log[start..])
    ensures forall k :: 0 <= k <= |s.log[start..]| ==> Title(Kept(|t.members| + 1, s.log[start..][..k])).Some?
  {
    SessionLater(t, s, x, start);
    var n, events := |t.members| + 1, s.log[start..];
    forall k | 0 <= k <= |events| ensures Net(n, events[..k]) >= 1 {
      NetPositive(t, s, start, k);
    }
    forall k | 0 <= k <= |events| ensures Title(Kept(n, events[..k])).Some? {
      SaturationPrefix(n, events, k);
      KeptIsNet(n, events[..k]);
    }
  }

  lemma SaturationPrefix(count: nat, events: seq<Event>, k: nat)
    requires NoSaturation(count, events) && k <= |events|
    ensures NoSaturation(count, events[..k])
  {
    forall j | 0 <= j <= k ensures Net(count, events[..k][..j]) >= 0 {
      assert events[..k][..j] == events[..j];
    }
  }

  lemma NetPositive(t: State, s: State, start: nat, k: nat)
    requires PresenceOnce(s.log) && PresenceMatches(t) && MembersFit(t)
    requires t.log <= s.log && start <= |t.log| && start + k <= |s.log|
    requires LateLeaves(t, s.log[start..]) == {}
    ensures Net(|t.members| + 1, s.log[start..][..k]) >= 1
  {
    var events := s.log[start..][..k];
    OnceInSlice(s.log, start, k);
    NetCounts(|t.members| + 1, events);
    var joins, leaves := AnnouncedIds(events, true), AnnouncedIds(events, false);
    forall id | id in leaves ensures id in t.members.Keys + joins {
      HeardMembers(t, s, start, k, id);
    }
    SubsetSize(leaves, t.members.Keys + joins);
    UnionSize(t.members.Keys, joins);
    assert |t.members| == |t.members.Keys|;
  }

  lemma OnceInSlice(log: seq<Event>, start: nat, k: nat)
    requires PresenceOnce(log) && start + k <= |log|
    ensures forall i, j :: 0 <= i < j < k && log[start..][..k][i].Presence? ==>
              log[start..][..k][i] != log[start..][..k][j]
  {
    var slice := log[start..][..k];
    forall i, j | 0 <= i < j < k && slice[i].Presence? ensures slice[i] != slice[j] {
      assert slice[i] == log[start + i] && slice[j] == log[start + j];
    }
  }

  lemma NothingLate(t: State, s: State, x: nat, start: nat)
    requires Session(t, s, x, start) && start == |t.log| && NoneInFlight(t)
    ensures LateJoins(t, s.log[start..]) == {} && LateLeaves(t, s.log[start..]) == {}
  {
    SessionLater(t, s, x, start);
    AnnouncedSplit(s.log, start, true);
    AnnouncedSplit(s.log, start, false);
    assert s.log[..start] == t.log;
    assert AnnouncedIds(t.log, true) == Inserted(t) && AnnouncedIds(t.log, false) == Removed(t);
  }

  /** If the insertion follows the subscription with nothing announced in between, and no other change of the map was
      waiting to be announced, there is no drift and no saturation: the title shows exactly the room size. */
  lemma UninterruptedJoin(t: State, s: State, x: nat, start: nat)
    requires Session(t, s, x, start) && start == |t.log| && NoneInFlight(t) && NoneInFlight(s)
    ensures Title(Kept(|t.members| + 1, s.log[start..])) == Some(|s.members|)
  {
    NothingLate(t, s, x, start);
    NoLateLeavesNoSaturation(t, s, x, start);
    DriftWithoutLag(t, s, x, start);
  }
}
