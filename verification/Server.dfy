/**
 The life of connections: admission under a permit, the room's member map, the broadcast channel as an append-only log
 with one cursor per receiver, the votes of each connection, its clean-up, and the server's graceful shutdown.

 Every lock-protected update, channel operation and vote step is a step of its own; any number of handlers,
 write tasks and the accept loop interleave. Handlers do not panic.
 */
module Server {
  import opened Sets
  import opened Wrappers
  import P = VoteProtocol
  import Runs

  const MAX_CONNECTIONS: nat := 500

  datatype Event = Presence(id: nat, joined: bool) | Shutdown | Other

  /** The write task of a connection, with the position of its receiver in the log. */
  datatype Writer = Receiving(cursor: nat) | Stopped

  /** Where a handler stands. `Finished(false)` is the early return when the Welcome line cannot be written. */
  datatype Phase =
    | Spawned
    | Subscribed(cursor: nat)
    | Joined(cursor: nat, count: nat)
    | Announced(cursor: nat, count: nat)
    | Serving(writer: Writer)
    | Closing
    | Departed
    | Finished(welcomed: bool)

  datatype Main = Accepting | Draining | Ended

  datatype State = State(
    permits: nat,
    nextId: nat,
    handles: seq<nat>,
    main: Main,
    phases: map<nat, Phase>,
    members: map<nat, Option<string>>,
    log: seq<Event>,
    cap: nat,
    votes: P.State)

  datatype Step =
    | Accept
    | Reject
    | CtrlC
    | Await
    | Subscribe(id: nat)
    | Insert(id: nat)
    | AnnounceJoin(id: nat)
    | Welcome(id: nat, ok: bool)
    | Receive(id: nat)
    | WriteFails(id: nat)
    | Broadcast
    | SetNick(id: nat, name: string)
    | Command(id: nat, command: P.Command)
    | VoteStep(id: nat)
    | Exit(id: nat, peerClosed: bool)
    | Leave(id: nat)
    | AnnounceLeave(id: nat)

  ghost predicate Init(s: State) {
    && s.permits == MAX_CONNECTIONS && s.nextId == 1 && s.handles == [] && s.main == Accepting
    && s.phases == map[] && s.members == map[] && s.log == [] && P.Init(s.votes)
  }

  /** The oldest event the channel still holds. */
  function Oldest(log: seq<Event>, cap: nat): nat {
    if |log| > cap then |log| - cap else 0
  }

  /** One `recv` of a write task whose socket writes succeed: a receiver that has fallen behind the channel's capacity
      is told that it lagged and resumes at the oldest event; the shutdown event ends the task. */
  function Received(log: seq<Event>, cap: nat, cursor: nat): Writer
    requires cursor < |log|
  {
    if cursor < Oldest(log, cap) then Receiving(Oldest(log, cap))
    else if log[cursor].Shutdown? then Stopped
    else Receiving(cursor + 1)
  }

  predicate In(s: State, id: nat) {
    id in s.phases
  }

  /** The handler is at its read loop. */
  predicate AtLoop(s: State, id: nat) {
    In(s, id) && s.phases[id].Serving? && id in s.votes.clients && s.votes.clients[id].pc.Idle?
  }

  predicate CanReceive(s: State, id: nat) {
    In(s, id) && s.phases[id].Serving? && s.phases[id].writer.Receiving? && s.phases[id].writer.cursor < |s.log|
  }

  predicate Enabled(s: State, step: Step) {
    match step
    case Accept => s.main.Accepting? && s.permits > 0
    case Reject => s.main.Accepting? && s.permits == 0
    case CtrlC => s.main.Accepting?
    case Await => s.main.Draining? && (s.handles == [] || HasFinished(s.phases, s.handles[0]))
    case Subscribe(id) => In(s, id) && s.phases[id].Spawned?
    case Insert(id) => In(s, id) && s.phases[id].Subscribed?
    case AnnounceJoin(id) => In(s, id) && s.phases[id].Joined?
    case Welcome(id, ok) => In(s, id) && s.phases[id].Announced? && (ok ==> P.Enabled(s.votes, P.Connect(id)))
    case Receive(id) => CanReceive(s, id)
    case WriteFails(id) =>
      CanReceive(s, id) &&
      s.phases[id].writer.cursor >= Oldest(s.log, s.cap) && !s.log[s.phases[id].writer.cursor].Shutdown?
    case Broadcast => true
    case SetNick(id, _) => AtLoop(s, id)
    case Command(id, command) => AtLoop(s, id) && !command.Hangup? && P.Enabled(s.votes, P.Begin(id, command))
    case VoteStep(id) =>
      In(s, id) && (s.phases[id].Serving? || s.phases[id].Closing?) && P.Enabled(s.votes, P.Advance(id))
    case Exit(id, peerClosed) =>
      AtLoop(s, id) && (peerClosed || s.phases[id].writer.Stopped?) && P.Enabled(s.votes, P.Begin(id, P.Hangup))
    case Leave(id) => In(s, id) && s.phases[id].Closing? && id in s.votes.clients && s.votes.clients[id].pc.Gone?
    case AnnounceLeave(id) => In(s, id) && s.phases[id].Departed?
  }

  predicate HasFinished(phases: map<nat, Phase>, id: nat) {
    id in phases && phases[id].Finished?
  }

  /** `handles.retain(|h| !h.is_finished())`. */
  function Retain(handles: seq<nat>, phases: map<nat, Phase>): seq<nat> {
    if handles == [] then []
    else
      var rest := Retain(handles[1..], phases);
      if HasFinished(phases, handles[0]) then rest else [handles[0]] + rest
  }

  function Move(s: State, id: nat, phase: Phase): State {
    s.(phases := s.phases[id := phase])
  }

  function Append(s: State, event: Event): State {
    s.(log := s.log + [event])
  }

  function Do(s: State, step: Step): State
    requires Enabled(s, step)
  {
    match step
    case Accept =>
      var id := s.nextId;
      var phases := s.phases[id := Spawned];
      s.(permits := s.permits - 1, nextId := id + 1, phases := phases, handles := Retain(s.handles + [id], phases))
    case Reject => s
    case CtrlC => Append(s, Shutdown).(main := Draining)
    case Await => if s.handles == [] then s.(main := Ended) else s.(handles := s.handles[1..])
    case Subscribe(id) => Move(s, id, Subscribed(|s.log|))
    case Insert(id) =>
      var members := s.members[id := None];
      Move(s, id, Joined(s.phases[id].cursor, |members|)).(members := members)
    case AnnounceJoin(id) =>
      Append(Move(s, id, Announced(s.phases[id].cursor, s.phases[id].count)), Presence(id, true))
    case Welcome(id, ok) =>
      if ok then Move(s, id, Serving(Receiving(s.phases[id].cursor))).(votes := P.Do(s.votes, P.Connect(id)))
      else Move(s, id, Finished(false)).(permits := s.permits + 1)
    case Receive(id) => Move(s, id, Serving(Received(s.log, s.cap, s.phases[id].writer.cursor)))
    case WriteFails(id) => Move(s, id, Serving(Stopped))
    case Broadcast => Append(s, Other)
    case SetNick(id, name) => if id in s.members then s.(members := s.members[id := Some(name)]) else s
    case Command(id, command) => s.(votes := P.Do(s.votes, P.Begin(id, command)))
    case VoteStep(id) => s.(votes := P.Do(s.votes, P.Advance(id)))
    case Exit(id, _) => Move(s, id, Closing).(votes := P.Do(s.votes, P.Begin(id, P.Hangup)))
    case Leave(id) => Move(s, id, Departed).(members := s.members - {id})
    case AnnounceLeave(id) =>
      Append(Move(s, id, Finished(true)), Presence(id, false)).(permits := s.permits + 1)
  }

  ghost predicate Next(s: State, s': State) {
    exists step :: Enabled(s, step) && s' == Do(s, step)
  }

  ghost predicate Reachable(s: State) {
    Runs.Reachable(Init, Next, s)
  }

  // ---- What every step keeps ----

  function Live(phases: map<nat, Phase>): set<nat> {
    set id | id in phases && !phases[id].Finished?
  }

  ghost predicate PermitsFit(s: State) {
    s.permits + |Live(s.phases)| == MAX_CONNECTIONS
  }

  /** Ids are handed out in order, each once. */
  ghost predicate IdsFit(s: State) {
    s.nextId >= 1 && forall id: nat {:trigger id in s.phases} :: id in s.phases <==> 1 <= id < s.nextId
  }

  /** The handler's id is in the member map: it is between its insertion and its removal, or it returned early
      after a failed Welcome. */
  predicate InRoom(phase: Phase) {
    phase.Joined? || phase.Announced? || phase.Serving? || phase.Closing? || phase == Finished(false)
  }

  ghost predicate MembersFit(s: State) {
    forall id: nat {:trigger id in s.members} :: id in s.members <==> id in s.phases && InRoom(s.phases[id])
  }

  ghost predicate HandlesFit(s: State) {
    && (forall id :: id in Live(s.phases) ==> id in s.handles)
    && (forall i :: 0 <= i < |s.handles| ==> s.handles[i] in s.phases)
    && (s.main.Ended? ==> s.handles == [])
  }

  predicate HasVotes(phase: Phase) {
    phase.Serving? || phase.Closing? || phase.Departed? || phase == Finished(true)
  }

  /** A handler votes from its Welcome on, and its vote clean-up is complete when it leaves the room. */
  ghost predicate VotesFit(s: State) {
    && (forall id: nat {:trigger id in s.votes.clients} ::
          id in s.votes.clients <==> id in s.phases && HasVotes(s.phases[id]))
    && (forall id :: id in s.phases && (s.phases[id].Departed? || s.phases[id] == Finished(true)) ==>
          id in s.votes.clients && s.votes.clients[id].pc.Gone?)
  }

  /** The shutdown event is sent once, when the accept loop ends. */
  ghost predicate LogFits(s: State) {
    && (s.main.Accepting? <==> Shutdown !in s.log)
    && (forall i, j :: 0 <= i < j < |s.log| ==> !(s.log[i].Shutdown? && s.log[j].Shutdown?))
  }

  /** Where the handler's receiver stands in the log, if it has one. */
  function Cursor(phase: Phase): Option<nat> {
    match phase
    case Subscribed(cursor) => Some(cursor)
    case Joined(cursor, _) => Some(cursor)
    case Announced(cursor, _) => Some(cursor)
    case Serving(Receiving(cursor)) => Some(cursor)
    case _ => None
  }

  /** Receivers are never past the end of the log. */
  ghost predicate CursorsFit(s: State) {
    forall id :: id in s.phases && Cursor(s.phases[id]).Some? ==> Cursor(s.phases[id]).value <= |s.log|
  }

  predicate IsClosing(pc: P.Pc) {
    match pc
    case Remove(_, closing) => closing
    case Reading(_, _, closing) => closing
    case Submitting(_, _, closing) => closing
    case _ => false
  }

  predicate ClosingAgrees(phase: Phase, pc: P.Pc) {
    (phase.Serving? ==> !IsClosing(pc) && !pc.Gone?) && (phase.Closing? ==> IsClosing(pc) || pc.Gone?)
  }

  /** The vote clean-up runs between leaving the read loop and leaving the room. */
  ghost predicate ClosingFits(s: State) {
    forall id :: id in s.phases && id in s.votes.clients ==> ClosingAgrees(s.phases[id], s.votes.clients[id].pc)
  }

  ghost predicate Inv(s: State) {
    && ClosingFits(s)
    && PermitsFit(s)
    && IdsFit(s)
    && MembersFit(s)
    && HandlesFit(s)
    && VotesFit(s)
    && LogFits(s)
    && CursorsFit(s)
    && P.Inv(s.votes)
  }

  lemma PermitsKept(s: State, step: Step)
    requires PermitsFit(s) && IdsFit(s) && Enabled(s, step)
    ensures PermitsFit(Do(s, step))
  {
    var s' := Do(s, step);
    if step.Accept? {
      SetUpdate(Live(s.phases), Live(s'.phases), s.nextId);
    } else if step.Welcome? || step.AnnounceLeave? {
      SetUpdate(Live(s.phases), Live(s'.phases), step.id);
    } else {
      assert Live(s'.phases) == Live(s.phases);
    }
  }

  lemma IdsKept(s: State, step: Step)
    requires IdsFit(s) && Enabled(s, step)
    ensures IdsFit(Do(s, step))
  {
  }

  lemma MembersKept(s: State, step: Step)
    requires MembersFit(s) && IdsFit(s) && Enabled(s, step)
    ensures MembersFit(Do(s, step))
  {
  }

  lemma {:induction false} RetainKeeps(handles: seq<nat>, phases: map<nat, Phase>)
    ensures forall id :: id in Retain(handles, phases) <==> id in handles && !HasFinished(phases, id)
    decreases |handles|
  {
    if handles == [] {
    } else {
      RetainKeeps(handles[1..], phases);
      assert handles == [handles[0]] + handles[1..];
    }
  }

  lemma {:induction false} RetainCounts(handles: seq<nat>, phases: map<nat, Phase>, id: nat)
    ensures multiset(Retain(handles, phases))[id] == if HasFinished(phases, id) then 0 else multiset(handles)[id]
    decreases |handles|
  {
    if handles == [] {
    } else {
      RetainCounts(handles[1..], phases, id);
      assert handles == [handles[0]] + handles[1..];
    }
  }

  lemma HandlesKept(s: State, step: Step)
    requires HandlesFit(s) && Enabled(s, step)
    ensures HandlesFit(Do(s, step))
  {
    if step.Accept? {
      RetainKeeps(s.handles + [s.nextId], Do(s, step).phases);
      var handles := Do(s, step).handles;
      forall i | 0 <= i < |handles| ensures handles[i] in Do(s, step).phases {
        assert handles[i] in handles;
        assert handles[i] in s.handles + [s.nextId];
      }
    }
  }

  /** A step of the vote protocol touches its own connection only, and none that is gone. */
  lemma VoteTouches(v: P.State, step: P.Step)
    requires P.Enabled(v, step)
    ensures P.Do(v, step).clients == v.clients[step.c := P.Do(v, step).clients[step.c]]
    ensures step.c in v.clients ==> !v.clients[step.c].pc.Gone?
  {
  }

  lemma VotesKeptByVote(s: State, s': State, vote: P.Step)
    requires VotesFit(s) && P.Enabled(s.votes, vote) && s'.votes == P.Do(s.votes, vote)
    requires vote.c in s.phases && vote.c in s'.phases && s'.phases == s.phases[vote.c := s'.phases[vote.c]]
    requires HasVotes(s'.phases[vote.c]) && !s'.phases[vote.c].Departed? && !s'.phases[vote.c].Finished?
    ensures VotesFit(s')
  {
    VoteTouches(s.votes, vote);
  }

  lemma VotesKeptOtherwise(s: State, s': State, id: nat)
    requires VotesFit(s) && s'.votes == s.votes
    requires id in s'.phases && s'.phases == s.phases[id := s'.phases[id]]
    requires id in s.phases ==> (HasVotes(s.phases[id]) <==> HasVotes(s'.phases[id]))
    requires id !in s.phases ==> !HasVotes(s'.phases[id])
    requires s'.phases[id].Departed? || s'.phases[id] == Finished(true) ==>
               id in s.votes.clients && s.votes.clients[id].pc.Gone?
    ensures VotesFit(s')
  {
  }

  lemma VotesKept(s: State, step: Step)
    requires VotesFit(s) && IdsFit(s) && Enabled(s, step)
    ensures VotesFit(Do(s, step))
  {
    var s' := Do(s, step);
    match step
    case Welcome(id, ok) =>
      if ok { VotesKeptByVote(s, s', P.Connect(id)); } else { VotesKeptOtherwise(s, s', id); }
    case Command(id, command) => VotesKeptByVote(s, s', P.Begin(id, command));
    case VoteStep(id) => VotesKeptByVote(s, s', P.Advance(id));
    case Exit(id, _) => VotesKeptByVote(s, s', P.Begin(id, P.Hangup));
    case Accept => VotesKeptOtherwise(s, s', s.nextId);
    case _ => VotesKeptElsewhere(s, step);
  }

  lemma VotesKeptElsewhere(s: State, step: Step)
    requires VotesFit(s) && Enabled(s, step) && !step.Accept?
    requires !step.Welcome? && !step.Command? && !step.VoteStep? && !step.Exit?
    ensures VotesFit(Do(s, step))
  {
    if !(step.Reject? || step.CtrlC? || step.Await? || step.Broadcast? || step.SetNick?) {
      VotesKeptOtherwise(s, Do(s, step), step.id);
    }
  }

  lemma LogKept(s: State, step: Step)
    requires LogFits(s) && Enabled(s, step)
    ensures LogFits(Do(s, step))
  {
  }

  lemma ClosingAdvances(v: P.State, id: nat)
    requires P.Enabled(v, P.Advance(id))
    ensures
      var before, after := v.clients[id].pc, P.Do(v, P.Advance(id)).clients[id].pc;
      if IsClosing(before) then IsClosing(after) || after.Gone? else !IsClosing(after) && !after.Gone?
  {
  }

  /** Whose phase or votes a step may touch; 0 stands for nobody. */
  function Touched(s: State, step: Step): nat {
    match step
    case Accept => s.nextId
    case Reject => 0
    case CtrlC => 0
    case Await => 0
    case Broadcast => 0
    case _ => step.id
  }

  /** A step leaves the phase of everyone else alone. */
  lemma TouchesOnePhase(s: State, step: Step, id: nat)
    requires Enabled(s, step) && id != Touched(s, step)
    ensures id in Do(s, step).phases <==> id in s.phases
    ensures id in s.phases ==> Do(s, step).phases[id] == s.phases[id]
  {
  }

  /** A step leaves the votes of everyone else alone. */
  lemma TouchesOneVote(s: State, step: Step, id: nat)
    requires Enabled(s, step) && id != Touched(s, step)
    ensures id in Do(s, step).votes.clients <==> id in s.votes.clients
    ensures id in s.votes.clients ==> Do(s, step).votes.clients[id] == s.votes.clients[id]
  {
    match step
    case Welcome(c, ok) => if ok { VoteTouches(s.votes, P.Connect(c)); }
    case Command(c, command) => VoteTouches(s.votes, P.Begin(c, command));
    case VoteStep(c) => VoteTouches(s.votes, P.Advance(c));
    case Exit(c, _) => VoteTouches(s.votes, P.Begin(c, P.Hangup));
    case _ =>
  }

  lemma ClosingKeptAt(s: State, step: Step)
    requires ClosingFits(s) && VotesFit(s) && IdsFit(s) && Enabled(s, step)
    ensures
      var s', id := Do(s, step), Touched(s, step);
      id in s'.phases && id in s'.votes.clients ==> ClosingAgrees(s'.phases[id], s'.votes.clients[id].pc)
  {
    var id := Touched(s, step);
    assert id in s.phases && id in s.votes.clients ==>
           HasVotes(s.phases[id]) && ClosingAgrees(s.phases[id], s.votes.clients[id].pc);
    if step.VoteStep? {
      ClosingAdvances(s.votes, id);
    }
  }

  lemma ClosingKept(s: State, step: Step)
    requires ClosingFits(s) && VotesFit(s) && IdsFit(s) && Enabled(s, step)
    ensures ClosingFits(Do(s, step))
  {
    var s' := Do(s, step);
    ClosingKeptAt(s, step);
    forall id | id in s'.phases && id in s'.votes.clients
      ensures ClosingAgrees(s'.phases[id], s'.votes.clients[id].pc)
    {
      if id != Touched(s, step) {
        TouchesOnePhase(s, step, id);
        TouchesOneVote(s, step, id);
      }
    }
  }

  lemma CursorsKept(s: State, step: Step)
    requires CursorsFit(s) && Enabled(s, step)
    ensures CursorsFit(Do(s, step))
  {
  }

  lemma BoardKept(s: State, step: Step)
    requires P.Inv(s.votes) && Enabled(s, step)
    ensures P.Inv(Do(s, step).votes)
  {
    match step
    case Welcome(id, ok) => if ok { P.InvStep(s.votes, P.Connect(id)); }
    case Command(id, command) => P.InvStep(s.votes, P.Begin(id, command));
    case VoteStep(id) => P.InvStep(s.votes, P.Advance(id));
    case Exit(id, _) => P.InvStep(s.votes, P.Begin(id, P.Hangup));
    case _ =>
  }

  lemma InvInit(s: State)
    requires Init(s)
    ensures Inv(s)
  {
    P.InvInit(s.votes);
    assert Live(s.phases) == {};
  }

  lemma InvStep(s: State, step: Step)
    requires Inv(s) && Enabled(s, step)
    ensures Inv(Do(s, step))
  {
    PermitsKept(s, step);
    IdsKept(s, step);
    MembersKept(s, step);
    HandlesKept(s, step);
    VotesKept(s, step);
    LogKept(s, step);
    CursorsKept(s, step);
    ClosingKept(s, step);
    BoardKept(s, step);
  }

  lemma InvNext()
    ensures forall s, s' :: Inv(s) && Next(s, s') ==> Inv(s')
  {
    forall s, s' | Inv(s) && Next(s, s') ensures Inv(s') {
      var step :| Enabled(s, step) && s' == Do(s, step);
      InvStep(s, step);
    }
  }

  lemma ReachableInv(s: State)
    requires Reachable(s)
    ensures Inv(s)
  {
    InvNext();
    forall s0 | Init(s0) ensures Inv(s0) {
      InvInit(s0);
    }
    Runs.Always(Init, Next, Inv, s);
  }

  /** One more step of a run. */
  lemma Reach(s: State, step: Step) returns (s': State)
    requires Reachable(s) && Enabled(s, step)
    ensures Reachable(s') && s' == Do(s, step)
  {
    s' := Do(s, step);
    Runs.Extend(Init, Next, s, s');
  }

  // ---- Main results ----

  /** Over every run: permits and live handlers add up to the limit; ids are handed out one after the other; the member
      map holds exactly the handlers between their insertion and their removal, and those that returned early because
      their Welcome could not be written; and every unfinished handler is awaited by the server. */
  lemma LifecycleConservation(s: State)
    requires Reachable(s)
    ensures s.permits + |Live(s.phases)| == MAX_CONNECTIONS
    ensures forall id: nat {:trigger id in s.phases} :: id in s.phases <==> 1 <= id < s.nextId
    ensures s.members.Keys == set id | id in s.phases && InRoom(s.phases[id])
    ensures forall id :: id in Live(s.phases) ==> id in s.handles
  {
    ReachableInv(s);
  }

  /** Joining never overwrites a member: an id is inserted at most once. */
  lemma JoinNeverOverwrites(s: State, id: nat)
    requires Reachable(s) && Enabled(s, Insert(id))
    ensures id !in s.members
    ensures Do(s, Insert(id)).phases[id].count == |s.members| + 1
  {
    ReachableInv(s);
  }

  ghost predicate AllFinished(s: State) {
    forall id :: id in s.phases ==> s.phases[id].Finished?
  }

  /** When the server's `run` has returned, every handler it ever admitted has finished. */
  lemma EndedMeansFinished(s: State)
    requires Reachable(s) && s.main.Ended?
    ensures AllFinished(s)
  {
    ReachableInv(s);
    forall id | id in s.phases ensures s.phases[id].Finished? {
      assert id in Live(s.phases) ==> id in s.handles;
    }
  }

  /** Connections that are gone leave nothing on the board. */
  lemma BoardCleared(v: P.State)
    requires P.CountersAgree(v) && forall c :: c in v.clients ==> v.clients[c].pc.Gone?
    ensures v.counts == [0, 0, 0, 0]
  {
    forall o | 0 <= o < P.N_OPTIONS ensures v.counts[o] == 0 {
      assert P.Holders(v.clients, o) == {} && P.Raisers(v.clients, o) == {};
    }
  }

  /** When all handlers have finished, all permits are back, every vote counter is zero, and the only ids left in the
      member map are those of connections whose Welcome could not be written. */
  lemma EverythingReturned(s: State)
    requires Reachable(s) && AllFinished(s)
    ensures s.permits == MAX_CONNECTIONS
    ensures s.votes.counts == [0, 0, 0, 0]
    ensures s.members.Keys == set id | id in s.phases && s.phases[id] == Finished(false)
  {
    ReachableInv(s);
    assert Live(s.phases) == {};
    BoardCleared(s.votes);
  }

  /** Every admission reaps: from then on exactly the handlers that have not finished are awaited. */
  lemma AcceptReaps(s: State, id: nat)
    requires Reachable(s) && Enabled(s, Accept)
    ensures id in Do(s, Accept).handles <==> id in Live(Do(s, Accept).phases)
    ensures s.nextId in Do(s, Accept).handles
  {
    ReachableInv(s);
    InvStep(s, Accept);
    RetainKeeps(s.handles + [s.nextId], Do(s, Accept).phases);
    var handles := Do(s, Accept).handles;
    if id in handles {
      var i :| 0 <= i < |handles| && handles[i] == id;
      assert handles[i] in Do(s, Accept).phases;
    }
  }

  // ---- The votes inside the server ----

  ghost predicate VotesReachable(s: State) {
    Inv(s) && P.Reachable(s.votes)
  }

  lemma VotesStayReachable(s: State, step: Step)
    requires VotesReachable(s) && Enabled(s, step)
    ensures P.Reachable(Do(s, step).votes)
  {
    match step
    case Welcome(id, ok) => if ok { P.ReachableStep(s.votes, P.Connect(id)); }
    case Command(id, command) => P.ReachableStep(s.votes, P.Begin(id, command));
    case VoteStep(id) => P.ReachableStep(s.votes, P.Advance(id));
    case Exit(id, _) => P.ReachableStep(s.votes, P.Begin(id, P.Hangup));
    case _ =>
  }

  /** What the server does to the board is a run of the vote protocol, so all that holds of its runs holds here. */
  lemma VotesAreProtocol(s: State)
    requires Reachable(s)
    ensures P.Reachable(s.votes)
  {
    forall s0 | Init(s0) ensures VotesReachable(s0) {
      InvInit(s0);
      Runs.Start(P.Init, P.Next, s0.votes);
    }
    forall s0, s1 | VotesReachable(s0) && Next(s0, s1) ensures VotesReachable(s1) {
      var step :| Enabled(s0, step) && s1 == Do(s0, step);
      InvStep(s0, step);
      VotesStayReachable(s0, step);
    }
    Runs.Always(Init, Next, VotesReachable, s);
  }

  /** Conversely, whatever step of the vote protocol a connection can take, its handler can take; a connection comes in
      when its handler writes the Welcome line. */
  lemma ProtocolIsServed(s: State, vote: P.Step) returns (step: Step)
    requires Reachable(s) && P.Enabled(s.votes, vote)
    requires vote.Connect? ==> In(s, vote.c) && s.phases[vote.c].Announced?
    ensures Enabled(s, step) && Touched(s, step) == vote.c && Do(s, step).votes == P.Do(s.votes, vote)
  {
    ReachableInv(s);
    match vote
    case Connect(c) => step := Welcome(c, true);
    case Begin(c, command) =>
      assert ClosingAgrees(s.phases[c], s.votes.clients[c].pc);
      step := if command.Hangup? then Exit(c, true) else Command(c, command);
    case Advance(c) =>
      assert ClosingAgrees(s.phases[c], s.votes.clients[c].pc);
      step := VoteStep(c);
  }

  // ---- Chat ----

  /** A chat message can be sent at any time, and a receiver that has heard everything so far hears it next. */
  lemma ChatIsHeard(s: State, id: nat)
    requires Reachable(s) && s.cap > 0 && In(s, id) && s.phases[id] == Serving(Receiving(|s.log|))
    ensures Enabled(s, Broadcast) && Enabled(Do(s, Broadcast), Receive(id))
    ensures Do(Do(s, Broadcast), Receive(id)).phases[id] == Serving(Receiving(|s.log| + 1))
    ensures Do(s, Broadcast) == s.(log := s.log + [Other])
  {
  }

  // ---- Names ----

  /** Only setting it changes a member's name, and it is what was set last; a newcomer has none. */
  lemma NicksKept(s: State, step: Step, id: nat)
    requires Reachable(s) && Enabled(s, step) && id in Do(s, step).members
    ensures
      Do(s, step).members[id] ==
      if step == Insert(id) then None
      else if step.SetNick? && step.id == id then Some(step.name)
      else if id in s.members then s.members[id] else None
    ensures id in s.members || step == Insert(id)
  {
    ReachableInv(s);
  }

  /** A connection at its read loop can always name itself. */
  lemma NickTaken(s: State, id: nat, name: string)
    requires Reachable(s) && AtLoop(s, id)
    ensures Enabled(s, SetNick(id, name)) && id in s.members
    ensures Do(s, SetNick(id, name)) == s.(members := s.members[id := Some(name)])
  {
    ReachableInv(s);
  }

  // ---- The server returns ----

  /** A draining server whose handlers have all finished returns, one awaited handle at a time, and changes nothing
      else on the way. */
  lemma {:induction false} DrainedServerReturns(s: State)
    requires Reachable(s) && s.main.Draining? && AllFinished(s)
    ensures Runs.Leads(Next, s, s.(handles := [], main := Ended))
    decreases |s.handles|
  {
    ReachableInv(s);
    assert s.handles != [] ==> s.handles[0] in s.phases;
    var s' := Reach(s, Await);
    assert Next(s, s');
    if s.handles == [] {
      Runs.Stay(Next, s);
      Runs.LeadsOn(Next, s, s, s');
    } else {
      DrainedServerReturns(s');
      Runs.Prepend(Next, s, s', s'.(handles := [], main := Ended));
    }
  }
}
