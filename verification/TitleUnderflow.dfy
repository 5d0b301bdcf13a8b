/**
 When the title of a terminal client can underflow: the exact condition on the state in which its handler inserts it
 into the member map, over all continuations, for a receiver that does not lag.
 */
module TitleUnderflow {
  import opened Replica
  import opened Server
  import opened Sets
  import opened Wrappers
  import P = VoteProtocol
  import Runs

  // ---- The condition ----

  /** Out of the map already, but the client hears only the leave: the join is before its subscription. */
  function OnlyLeaveHeard(t: State, start: nat): set<nat>
    requires start <= |t.log|
  {
    Removed(t) * AnnouncedIds(t.log[..start], true) - AnnouncedIds(t.log[..start], false)
  }

  /** In the map, so counted by the Welcome, with the join before the client's subscription not in the log. */
  function JoinNotBefore(t: State, start: nat): set<nat>
    requires start <= |t.log|
  {
    t.members.Keys - AnnouncedIds(t.log[..start], true)
  }

  /** In the map for good: their Welcome could not be written. */
  function NeverLeave(phases: map<nat, Phase>): set<nat> {
    set id | id in phases && phases[id] == Finished(false)
  }

  /** Those whose leave alone will be heard are at least the client itself, the members whose join is heard besides
      being counted, and those that never leave. */
  predicate LeavesPrevail(t: State, start: nat)
    requires start <= |t.log|
  {
    |OnlyLeaveHeard(t, start)| >= 1 + |JoinNotBefore(t, start)| + |NeverLeave(t.phases)|
  }

  /** The first `k` events after the client's subscription, already sent, take the count down to zero. */
  predicate ZeroAt(t: State, start: nat, k: nat)
    requires start <= |t.log|
  {
    k <= |t.log| - start && Net(|t.members| + 1, t.log[start..][..k]) <= 0
  }

  /** Some of the events sent between the client's subscription and its insertion already take the count down to zero;
      or those whose leave alone will be heard prevail in the end. */
  ghost predicate UnderflowAhead(t: State, start: nat)
    requires start <= |t.log|
  {
    (exists k: nat :: ZeroAt(t, start, k)) || LeavesPrevail(t, start)
  }

  /** In some continuation the client is served and, after `k` events, its title underflows. */
  ghost predicate CanUnderflow(t: State, x: nat, start: nat) {
    exists s, k: nat ::
      && Session(t, s, x, start) && In(s, x) && s.phases[x].Serving? && start + k <= |s.log|
      && Title(Kept(|t.members| + 1, s.log[start..][..k])).None?
  }

  // ---- No continuation takes the count lower ----

  /** Both states' logs tell who came and went, and the later one is longer. */
  ghost predicate LogsFit(t: State, s: State, start: nat) {
    PresenceFits(t) && MembersFit(t) && PresenceFits(s) && t.log <= s.log && start <= |t.log|
  }

  lemma FailedStay(s: State, step: Step)
    requires IdsFit(s) && Enabled(s, step)
    ensures NeverLeave(s.phases) <= NeverLeave(Do(s, step).phases)
  {
    forall id | id in NeverLeave(s.phases) ensures id in NeverLeave(Do(s, step).phases) {
      if id != Touched(s, step) {
        TouchesOnePhase(s, step, id);
      }
    }
  }

  lemma FailedForGood(s: State, s': State)
    requires IdsFit(s) && Runs.Leads(Next, s, s')
    ensures NeverLeave(s.phases) <= NeverLeave(s'.phases)
  {
    var good := d => IdsFit(d) && NeverLeave(s.phases) <= NeverLeave(d.phases);
    forall d, d' | good(d) && Next(d, d') ensures good(d') {
      var step :| Enabled(d, step) && d' == Do(d, step);
      IdsKept(d, step);
      FailedStay(d, step);
    }
    Runs.AlwaysFrom(Next, good, s, s');
  }

  /** Sets as in the claim: `e` only leave, `m` of the members join late, `g` never leave, `joins` and `leaves` are
      heard. */
  lemma CountBound(members: set<nat>, e: set<nat>, m: set<nat>, g: set<nat>, joins: set<nat>, leaves: set<nat>)
    requires m <= members && g <= members && g * m <= joins
    requires leaves <= e + (members - (m + g)) + (joins - g)
    ensures |leaves| <= |e| + |members| + |joins| - |m| - |g|
  {
    SubsetSize(leaves, e + (members - (m + g)) + (joins - g));
    UnionSize(e + (members - (m + g)), joins - g);
    UnionSize(e, members - (m + g));
    DifferenceSize(members, m + g);
    BothSizes(m, g);
    SubsetSize(g * m, joins * g);
    DifferenceSize(joins, joins * g);
    assert joins - g == joins - joins * g;
  }

  lemma BothSizes(m: set<nat>, g: set<nat>)
    ensures |m + g| + |g * m| == |m| + |g|
  {
    assert m + g == m + (g - g * m);
    assert m !! (g - g * m);
    DifferenceSize(g, g * m);
  }

  /** Where a leave that is heard comes from. */
  lemma LeaveComesFrom(t: State, s: State, start: nat, k: nat, id: nat)
    requires LogsFit(t, s, start) && start + k <= |s.log|
    requires NeverLeave(t.phases) <= NeverLeave(s.phases) && id in AnnouncedIds(s.log[start..][..k], false)
    ensures id !in NeverLeave(t.phases)
    ensures
      || id in OnlyLeaveHeard(t, start)
      || id in t.members.Keys - JoinNotBefore(t, start)
      || id in AnnouncedIds(s.log[start..][..k], true)
  {
    HeardLeaving(s.log, start, k, id);
    assert s.log[..start] == t.log[..start];
    AnnouncedSplit(s.log, start, false);
    PrefixAnnounced(s.log[start..], k, false);
    assert id in s.phases && s.phases[id] == Finished(true);
    if id in AnnouncedIds(t.log[..start], true) {
      PrefixAnnounced(t.log, start, true);
      assert id in t.phases && HasAnnounced(t.phases[id]);
      if id !in Removed(t) {
        AnnouncedMember(t, id);
      }
    }
  }

  lemma LateJoinsHeard(t: State, s: State, start: nat, k: nat)
    requires LogsFit(t, s, start) && |t.log| <= start + k <= |s.log|
    ensures NeverLeave(t.phases) * JoinNotBefore(t, start) <= AnnouncedIds(s.log[start..][..k], true)
  {
    var tail := |t.log| - start;
    forall id | id in NeverLeave(t.phases) && id in JoinNotBefore(t, start)
      ensures id in AnnouncedIds(s.log[start..][..k], true)
    {
      assert id in AnnouncedIds(t.log, true);
      AnnouncedSplit(t.log, start, true);
      assert t.log[start..] == s.log[start..][..k][..tail];
      PrefixAnnounced(s.log[start..][..k], tail, true);
    }
  }

  lemma FailedAreMembers(t: State)
    requires MembersFit(t)
    ensures NeverLeave(t.phases) <= t.members.Keys
  {
    forall id | id in NeverLeave(t.phases) ensures id in t.members {
      assert InRoom(t.phases[id]);
    }
  }

  lemma LeavesCome(t: State, s: State, start: nat, k: nat)
    requires LogsFit(t, s, start) && start + k <= |s.log| && NeverLeave(t.phases) <= NeverLeave(s.phases)
    ensures
      var e, m, g := OnlyLeaveHeard(t, start), JoinNotBefore(t, start), NeverLeave(t.phases);
      var events := s.log[start..][..k];
      AnnouncedIds(events, false) <= e + (t.members.Keys - (m + g)) + (AnnouncedIds(events, true) - g)
  {
    var events := s.log[start..][..k];
    forall id | id in AnnouncedIds(events, false)
      ensures id in OnlyLeaveHeard(t, start) +
                    (t.members.Keys - (JoinNotBefore(t, start) + NeverLeave(t.phases))) +
                    (AnnouncedIds(events, true) - NeverLeave(t.phases))
    {
      LeaveComesFrom(t, s, start, k, id);
    }
  }

  /** The count is at least what the condition allows for, once the joins of those that never leave have been heard. */
  lemma CountStaysAbove(t: State, s: State, start: nat, k: nat)
    requires LogsFit(t, s, start) && start + k <= |s.log| && NeverLeave(t.phases) <= NeverLeave(s.phases)
    requires NeverLeave(t.phases) * JoinNotBefore(t, start) <= AnnouncedIds(s.log[start..][..k], true)
    ensures Net(|t.members| + 1, s.log[start..][..k]) >=
            1 + |JoinNotBefore(t, start)| + |NeverLeave(t.phases)| - |OnlyLeaveHeard(t, start)|
  {
    var events := s.log[start..][..k];
    OnceInSlice(s.log, start, k);
    NetCounts(|t.members| + 1, events);
    FailedAreMembers(t);
    LeavesCome(t, s, start, k);
    CountBound(t.members.Keys, OnlyLeaveHeard(t, start), JoinNotBefore(t, start), NeverLeave(t.phases),
               AnnouncedIds(events, true), AnnouncedIds(events, false));
    assert |t.members| == |t.members.Keys|;
  }

  lemma SessionFailed(t: State, x: nat, start: nat, s: State)
    requires Session(t, s, x, start) && IdsFit(t)
    ensures NeverLeave(t.phases) <= NeverLeave(s.phases)
  {
    IdsKept(t, Insert(x));
    FailedStay(t, Insert(x));
    FailedForGood(Do(t, Insert(x)), s);
  }

  lemma SessionFits(t: State, x: nat, start: nat, s: State)
    requires Session(t, s, x, start)
    ensures LogsFit(t, s, start) && NeverLeave(t.phases) <= NeverLeave(s.phases)
  {
    SessionLater(t, s, x, start);
    SessionFailed(t, x, start, s);
  }

  lemma SamePrefix<T>(a: seq<T>, b: seq<T>, start: nat, k: nat)
    requires a <= b && start + k <= |a|
    ensures b[start..][..k] == a[start..][..k]
  {
    forall i | 0 <= i < k ensures b[start..][..k][i] == a[start..][..k][i] {
      assert b[start + i] == a[start + i];
    }
  }

  lemma UnderflowWasLate(t: State, start: nat, s: State, k: nat)
    requires LogsFit(t, s, start) && NeverLeave(t.phases) <= NeverLeave(s.phases) && |t.log| <= start + k <= |s.log|
    requires Net(|t.members| + 1, s.log[start..][..k]) <= 0
    ensures LeavesPrevail(t, start)
  {
    LateJoinsHeard(t, s, start, k);
    CountStaysAbove(t, s, start, k);
  }

  lemma UnderflowWasAhead(t: State, start: nat, s: State, k: nat)
    requires LogsFit(t, s, start) && NeverLeave(t.phases) <= NeverLeave(s.phases) && start + k <= |s.log|
    requires Kept(|t.members| + 1, s.log[start..][..k]) == 0
    ensures UnderflowAhead(t, start)
  {
    KeptAndSaturated(|t.members| + 1, s.log[start..][..k]);
    if start + k <= |t.log| {
      SamePrefix(t.log, s.log, start, k);
      assert ZeroAt(t, start, k);
    } else {
      UnderflowWasLate(t, start, s, k);
    }
  }

  // ---- A continuation that takes it there ----

  /** The handler can be brought to its end by its peer's hang-up. */
  predicate Leaver(phase: Phase) {
    phase.Announced? || phase.Serving? || phase.Closing? || phase.Departed?
  }

  function Leavers(phases: map<nat, Phase>): set<nat> {
    set id | id in phases && Leaver(phases[id])
  }

  /** Everybody who can leave has left. */
  function Left(phases: map<nat, Phase>): map<nat, Phase> {
    map id | id in phases :: if Leaver(phases[id]) then Finished(true) else phases[id]
  }

  function Rank(phase: Phase): nat {
    match phase
    case Announced(_, _) => 4
    case Serving(_) => 3
    case Closing => 2
    case Departed => 1
    case _ => 0
  }

  function CommandLeft(s: State, id: nat): nat {
    if id in s.votes.clients then P.StepsLeft(s.votes.clients[id].pc) else 0
  }

  /** The next step of a handler whose peer hangs up. */
  function LeavingStep(s: State, id: nat): Step
    requires In(s, id)
  {
    match s.phases[id]
    case Announced(_, _) => Welcome(id, true)
    case Serving(_) => if AtLoop(s, id) then Exit(id, true) else VoteStep(id)
    case Closing => if id in s.votes.clients && s.votes.clients[id].pc.Gone? then Leave(id) else VoteStep(id)
    case _ => AnnounceLeave(id)
  }

  lemma LeavingStepEnabled(s: State, id: nat)
    requires VotesFit(s) && ClosingFits(s) && P.Inv(s.votes) && In(s, id) && Leaver(s.phases[id])
    ensures Enabled(s, LeavingStep(s, id))
  {
    if id in s.votes.clients {
      assert P.ClientFits(s.votes, s.votes.clients[id]);
      assert ClosingAgrees(s.phases[id], s.votes.clients[id].pc);
    }
  }

  lemma LeavingStepCloser(s: State, id: nat)
    requires P.Inv(s.votes) && In(s, id) && Leaver(s.phases[id]) && Enabled(s, LeavingStep(s, id))
    ensures
      var s' := Do(s, LeavingStep(s, id));
      && In(s', id) && s'.phases == s.phases[id := s'.phases[id]]
      && (s'.phases[id] == Finished(true) ||
          (Leaver(s'.phases[id]) &&
           (Rank(s'.phases[id]) < Rank(s.phases[id]) ||
            (Rank(s'.phases[id]) == Rank(s.phases[id]) && CommandLeft(s', id) < CommandLeft(s, id)))))
  {
    if LeavingStep(s, id).VoteStep? {
      assert P.ClientFits(s.votes, s.votes.clients[id]);
      P.StepsOn(s.votes, id);
    }
  }

  lemma LeavesOn(s: State, id: nat) returns (s': State)
    requires Inv(s) && In(s, id) && Leaver(s.phases[id])
    ensures Inv(s') && Next(s, s') && In(s', id) && s'.phases == s.phases[id := s'.phases[id]]
    ensures
      || s'.phases[id] == Finished(true)
      || (Leaver(s'.phases[id]) &&
          (Rank(s'.phases[id]) < Rank(s.phases[id]) ||
           (Rank(s'.phases[id]) == Rank(s.phases[id]) && CommandLeft(s', id) < CommandLeft(s, id))))
  {
    LeavingStepEnabled(s, id);
    LeavingStepCloser(s, id);
    InvStep(s, LeavingStep(s, id));
    s' := Do(s, LeavingStep(s, id));
  }

  lemma UpdatedTwice<K, T>(m: map<K, T>, k: K, a: T, b: T)
    ensures m[k := a][k := b] == m[k := b]
  {
  }

  lemma {:induction false} LeavesOne(s0: State, s: State, id: nat) returns (s': State)
    requires Inv(s) && Runs.Leads(Next, s0, s) && In(s, id) && Leaver(s.phases[id])
    ensures Inv(s') && Runs.Leads(Next, s0, s') && s'.phases == s.phases[id := Finished(true)]
    decreases Rank(s.phases[id]), CommandLeft(s, id)
  {
    var s1 := LeavesOn(s, id);
    Runs.LeadsOn(Next, s0, s, s1);
    if s1.phases[id] == Finished(true) {
      s' := s1;
    } else {
      s' := LeavesOne(s0, s1, id);
      UpdatedTwice(s.phases, id, s1.phases[id], Finished(true));
    }
  }

  lemma LeftWithout(phases: map<nat, Phase>, id: nat)
    requires id in phases && Leaver(phases[id])
    ensures Left(phases[id := Finished(true)]) == Left(phases)
    ensures Leavers(phases[id := Finished(true)]) == Leavers(phases) - {id}
  {
  }

  lemma NobodyLeft(phases: map<nat, Phase>)
    requires Leavers(phases) == {}
    ensures Left(phases) == phases
  {
    forall id | id in phases ensures !Leaver(phases[id]) {
      assert id !in Leavers(phases);
    }
  }

  lemma {:induction false} AllLeave(s0: State, s: State) returns (s': State)
    requires Inv(s) && Runs.Leads(Next, s0, s)
    ensures Inv(s') && Runs.Leads(Next, s0, s') && s'.phases == Left(s.phases)
    decreases |Leavers(s.phases)|
  {
    if Leavers(s.phases) == {} {
      NobodyLeft(s.phases);
      s' := s;
    } else {
      var id :| id in Leavers(s.phases);
      var s1 := LeavesOne(s0, s, id);
      LeftWithout(s.phases, id);
      s' := AllLeave(s0, s1);
    }
  }

  /** The client's handler announces it and serves it. */
  lemma Served(s0: State, s: State, x: nat) returns (s': State)
    requires Inv(s) && Runs.Leads(Next, s0, s) && In(s, x) && s.phases[x].Joined?
    ensures Runs.Leads(Next, s0, s') && In(s', x) && s'.phases[x].Serving? && s.log <= s'.log
  {
    var s1 := Do(s, AnnounceJoin(x));
    InvStep(s, AnnounceJoin(x));
    Runs.LeadsOn(Next, s0, s, s1);
    s' := Do(s1, Welcome(x, true));
    Runs.LeadsOn(Next, s0, s1, s');
  }

  lemma {:induction false} NeverZero(count: nat, events: seq<Event>)
    requires forall j :: 0 <= j <= |events| ==> Kept(count, events[..j]) > 0
    ensures Saturated(count, events) == 0
    decreases |events|
  {
    if events == [] {
    } else {
      var front := events[..|events| - 1];
      assert events[..|front|] == front;
      forall j | 0 <= j <= |front| ensures Kept(count, front[..j]) > 0 {
        assert front[..j] == events[..j];
      }
      NeverZero(count, front);
    }
  }

  /** Where the unsaturated count is not positive, the count has been at zero. */
  lemma ReachesZero(count: nat, events: seq<Event>) returns (j: nat)
    requires Net(count, events) <= 0
    ensures j <= |events| && Kept(count, events[..j]) == 0
  {
    KeptAndSaturated(count, events);
    assert events[..|events|] == events;
    if forall i :: 0 <= i <= |events| ==> Kept(count, events[..i]) > 0 {
      NeverZero(count, events);
    }
    j :| 0 <= j <= |events| && Kept(count, events[..j]) == 0;
  }

  lemma CountReached(members: set<nat>, e: set<nat>, m: set<nat>, g: set<nat>, joins: set<nat>, leaves: set<nat>)
    requires m <= members && g <= members && joins * g <= g * m
    requires e + (members - (m + g)) + (joins - g) <= leaves
    requires e !! (members - (m + g)) !! (joins - g)
    ensures |leaves| >= |e| + |members| + |joins| - |m| - |g|
  {
    var stay := members - (m + g);
    assert |e + stay + (joins - g)| == |e| + |stay| + |joins - g|;
    SubsetSize(e + stay + (joins - g), leaves);
    DifferenceSize(members, m + g);
    BothSizes(m, g);
    SubsetSize(joins * g, g * m);
    DifferenceSize(joins, joins * g);
    assert joins - g == joins - joins * g;
  }

  /** Whoever left before had joined before. */
  lemma LeftAfterJoin(log: seq<Event>, start: nat, id: nat)
    requires PresenceOnce(log) && start <= |log| && id in AnnouncedIds(log[..start], false)
    ensures id in AnnouncedIds(log[..start], true)
  {
    var i :| 0 <= i < start && log[i] == Presence(id, false);
    assert log[..i] == log[..start][..i];
    PrefixAnnounced(log[..start], i, true);
  }

  /** When everybody has left who can, the leaves heard are at least these. */
  lemma LeavesReached(t: State, s: State, start: nat, id: nat)
    requires PresenceFits(s) && t.log <= s.log && start <= |t.log|
    requires id in s.phases && s.phases[id] == Finished(true) && id !in AnnouncedIds(t.log[..start], false)
    ensures id in AnnouncedIds(s.log[start..], false)
  {
    assert s.log[..start] == t.log[..start];
    AnnouncedSplit(s.log, start, false);
  }

  /** `x` has come in since `t`, and everybody has left who can. */
  ghost predicate Emptied(t: State, s: State, x: nat) {
    && x in t.phases && t.phases[x].Subscribed? && x in s.phases && s.phases[x].Joined?
    && (forall id :: id != x ==> (id in s.phases <==> id in t.phases))
    && (forall id :: id in t.phases && id != x ==>
          s.phases[id] == if Leaver(t.phases[id]) then Finished(true) else t.phases[id])
  }

  lemma EmptiedAfter(t: State, s: State, x: nat)
    requires Enabled(t, Insert(x)) && s.phases == Left(Do(t, Insert(x)).phases)
    ensures Emptied(t, s, x)
  {
  }

  /** Once everybody has left who can, the count is down to what the condition allows for. */
  lemma LateReached(t: State, s: State, x: nat, start: nat)
    requires LogsFit(t, s, start) && Emptied(t, s, x)
    ensures Net(|t.members| + 1, s.log[start..]) <=
            1 + |JoinNotBefore(t, start)| + |NeverLeave(t.phases)| - |OnlyLeaveHeard(t, start)|
  {
    OnceInTail(s.log, start);
    NetCounts(|t.members| + 1, s.log[start..]);
    FailedAreMembers(t);
    JoinsAfter(t, s, start);
    AllHeardLeaving(t, s, x, start);
    CountReached(t.members.Keys, OnlyLeaveHeard(t, start), JoinNotBefore(t, start), NeverLeave(t.phases),
                 AnnouncedIds(s.log[start..], true), AnnouncedIds(s.log[start..], false));
    assert |t.members| == |t.members.Keys|;
  }

  lemma HeardLeavingInTheEnd(t: State, s: State, x: nat, start: nat, id: nat)
    requires LogsFit(t, s, start) && Emptied(t, s, x)
    requires
      || id in OnlyLeaveHeard(t, start)
      || (id in AnnouncedIds(s.log[start..], true) && id !in NeverLeave(t.phases))
      || (id in t.members && id in AnnouncedIds(t.log[..start], true) && id !in NeverLeave(t.phases))
    ensures id in AnnouncedIds(s.log[start..], false)
  {
    if id in OnlyLeaveHeard(t, start) {
      RemovedLeft(t, s, x, start, id);
    } else if id in AnnouncedIds(s.log[start..], true) {
      JoinedLeft(t, s, x, start, id);
    } else {
      MemberLeft(t, s, x, start, id);
    }
    LeavesReached(t, s, start, id);
  }

  lemma AllHeardLeaving(t: State, s: State, x: nat, start: nat)
    requires LogsFit(t, s, start) && Emptied(t, s, x)
    ensures
      var e, m, g := OnlyLeaveHeard(t, start), JoinNotBefore(t, start), NeverLeave(t.phases);
      e + (t.members.Keys - (m + g)) + (AnnouncedIds(s.log[start..], true) - g) <= AnnouncedIds(s.log[start..], false)
  {
    var e, m, g := OnlyLeaveHeard(t, start), JoinNotBefore(t, start), NeverLeave(t.phases);
    var joins, leaves := AnnouncedIds(s.log[start..], true), AnnouncedIds(s.log[start..], false);
    forall id | id in e + (t.members.Keys - (m + g)) + (joins - g) ensures id in leaves {
      HeardLeavingInTheEnd(t, s, x, start, id);
    }
  }

  lemma RemovedLeft(t: State, s: State, x: nat, start: nat, id: nat)
    requires start <= |t.log| && Emptied(t, s, x) && id in OnlyLeaveHeard(t, start)
    ensures id in s.phases && s.phases[id] == Finished(true) && id !in AnnouncedIds(t.log[..start], false)
  {
  }

  lemma MemberLeft(t: State, s: State, x: nat, start: nat, id: nat)
    requires LogsFit(t, s, start) && Emptied(t, s, x)
    requires id in t.members && id in AnnouncedIds(t.log[..start], true) && id !in NeverLeave(t.phases)
    ensures id in s.phases && s.phases[id] == Finished(true) && id !in AnnouncedIds(t.log[..start], false)
  {
    assert InRoom(t.phases[id]);
    PrefixAnnounced(t.log, start, true);
    PrefixAnnounced(t.log, start, false);
    assert HasAnnounced(t.phases[id]);
  }

  lemma JoinedLeft(t: State, s: State, x: nat, start: nat, id: nat)
    requires LogsFit(t, s, start) && Emptied(t, s, x)
    requires id in AnnouncedIds(s.log[start..], true) && id !in NeverLeave(t.phases)
    ensures id in s.phases && s.phases[id] == Finished(true) && id !in AnnouncedIds(t.log[..start], false)
  {
    assert s.log[..start] == t.log[..start];
    AnnouncedSplit(s.log, start, true);
    assert HasAnnounced(s.phases[id]);
    if id in AnnouncedIds(t.log[..start], false) {
      LeftAfterJoin(s.log, start, id);
    }
  }

  /** Joins heard are not before the subscription. */
  lemma JoinsAfter(t: State, s: State, start: nat)
    requires LogsFit(t, s, start)
    ensures
      var e, m, g := OnlyLeaveHeard(t, start), JoinNotBefore(t, start), NeverLeave(t.phases);
      var joins := AnnouncedIds(s.log[start..], true);
      && joins * g <= g * m && e !! (t.members.Keys - (m + g)) !! (joins - g)
  {
    assert s.log[..start] == t.log[..start];
    AnnouncedSplit(s.log, start, true);
    FailedAreMembers(t);
    forall id | id in Removed(t) ensures id !in t.members {
      assert !InRoom(t.phases[id]);
    }
  }

  lemma UnderflowServed(t: State, s: State, x: nat, start: nat, k: nat)
    requires Reachable(t) && Enabled(t, Insert(x)) && t.phases[x] == Subscribed(start)
    requires Inv(s) && Runs.Leads(Next, Do(t, Insert(x)), s) && In(s, x) && s.phases[x].Joined?
    requires start + k <= |s.log| && Net(|t.members| + 1, s.log[start..][..k]) <= 0
    ensures CanUnderflow(t, x, start)
  {
    var j := ReachesZero(|t.members| + 1, s.log[start..][..k]);
    var s' := Served(Do(t, Insert(x)), s, x);
    ServedSession(t, s, s', x, start, k, j);
  }

  lemma ServedSession(t: State, s: State, s': State, x: nat, start: nat, k: nat, j: nat)
    requires Reachable(t) && Enabled(t, Insert(x)) && t.phases[x] == Subscribed(start)
    requires Runs.Leads(Next, Do(t, Insert(x)), s') && In(s', x) && s'.phases[x].Serving? && s.log <= s'.log
    requires j <= k && start + k <= |s.log| && Kept(|t.members| + 1, s.log[start..][..k][..j]) == 0
    ensures CanUnderflow(t, x, start)
  {
    SamePrefix(s.log, s'.log, start, j);
    assert s.log[start..][..k][..j] == s.log[start..][..j];
    assert Session(t, s', x, start);
  }

  lemma SubscribedBefore(t: State, x: nat, start: nat)
    requires CursorsFit(t) && In(t, x) && t.phases[x] == Subscribed(start)
    ensures start <= |t.log|
  {
    assert Cursor(t.phases[x]) == Some(start);
  }

  lemma Inserted(t: State, x: nat, start: nat) returns (s: State)
    requires Reachable(t) && Enabled(t, Insert(x)) && t.phases[x] == Subscribed(start)
    ensures PresenceFits(t) && MembersFit(t) && start <= |t.log|
    ensures s == Do(t, Insert(x)) && RoomInv(s) && In(s, x) && s.phases[x].Joined? && LaterRoom(t, s) && s.log == t.log
  {
    ReachableRoomInv(t);
    SubscribedBefore(t, x, start);
    s := Do(t, Insert(x));
    InvStep(t, Insert(x));
    PresenceKept(t, Insert(x));
    InsertedGrows(t, Insert(x));
    RemovedGrows(t, Insert(x));
  }

  lemma LaterThrough(t: State, s: State, s': State)
    requires LaterRoom(t, s) && LaterRoom(s, s')
    ensures LaterRoom(t, s')
  {
  }

  lemma RoomFits(t: State, x: nat, start: nat)
    requires Reachable(t) && In(t, x) && t.phases[x] == Subscribed(start)
    ensures LogsFit(t, t, start)
  {
    ReachableRoomInv(t);
    SubscribedBefore(t, x, start);
  }

  lemma UnderflowSoon(t: State, x: nat, start: nat, k: nat)
    requires Reachable(t) && Enabled(t, Insert(x)) && t.phases[x] == Subscribed(start)
    requires start <= |t.log| && ZeroAt(t, start, k)
    ensures CanUnderflow(t, x, start)
  {
    var s := Inserted(t, x, start);
    Runs.Stay(Next, s);
    UnderflowServed(t, s, x, start, k);
  }

  lemma EmptyRoom(t: State, x: nat, start: nat) returns (s: State)
    requires Reachable(t) && Enabled(t, Insert(x)) && t.phases[x] == Subscribed(start) && start <= |t.log|
    ensures Inv(s) && Runs.Leads(Next, Do(t, Insert(x)), s) && Emptied(t, s, x) && LogsFit(t, s, start)
  {
    var s0 := Inserted(t, x, start);
    Runs.Stay(Next, s0);
    s := AllLeave(s0, s0);
    EmptiedAfter(t, s, x);
    LaterAlong(s0, s);
    LaterThrough(t, s0, s);
  }

  lemma LateZero(t: State, s: State, x: nat, start: nat)
    requires LogsFit(t, s, start) && Emptied(t, s, x)
    requires LeavesPrevail(t, start)
    ensures start <= |s.log| && Net(|t.members| + 1, s.log[start..][..|s.log| - start]) <= 0
    ensures In(s, x) && s.phases[x].Joined?
  {
    LateReached(t, s, x, start);
    assert s.log[start..][..|s.log| - start] == s.log[start..];
  }

  lemma UnderflowLater(t: State, x: nat, start: nat)
    requires Reachable(t) && Enabled(t, Insert(x)) && t.phases[x] == Subscribed(start)
    requires start <= |t.log|
    requires LeavesPrevail(t, start)
    ensures CanUnderflow(t, x, start)
  {
    var s := EmptyRoom(t, x, start);
    LateZero(t, s, x, start);
    UnderflowServed(t, s, x, start, |s.log| - start);
  }

  lemma UnderflowSeen(t: State, x: nat, start: nat, s: State, k: nat)
    requires Session(t, s, x, start) && start + k <= |s.log|
    requires Title(Kept(|t.members| + 1, s.log[start..][..k])).None?
    ensures start <= |t.log| && UnderflowAhead(t, start)
  {
    SessionFits(t, x, start, s);
    UnderflowWasAhead(t, start, s, k);
  }

  lemma UnderflowOnlyIfAhead(t: State, x: nat, start: nat)
    requires start <= |t.log| && CanUnderflow(t, x, start)
    ensures UnderflowAhead(t, start)
  {
    var s, k: nat :|
      && Session(t, s, x, start) && In(s, x) && s.phases[x].Serving? && start + k <= |s.log|
      && Title(Kept(|t.members| + 1, s.log[start..][..k])).None?;
    UnderflowSeen(t, x, start, s, k);
  }

  /** The exact condition: some continuation makes the title of a served client underflow if and only if the state in
      which its handler is inserted into the map satisfies `UnderflowAhead`. */
  lemma TitleUnderflowIff(t: State, x: nat, start: nat)
    requires Reachable(t) && Enabled(t, Insert(x)) && t.phases[x] == Subscribed(start)
    ensures start <= |t.log|
    ensures CanUnderflow(t, x, start) <==> UnderflowAhead(t, start)
  {
    RoomFits(t, x, start);
    if i: nat :| ZeroAt(t, start, i) {
      UnderflowSoon(t, x, start, i);
    } else if LeavesPrevail(t, start) {
      UnderflowLater(t, x, start);
    } else if CanUnderflow(t, x, start) {
      UnderflowOnlyIfAhead(t, x, start);
    }
  }

  lemma EventsAddNothing(t: State, start: nat, k: nat)
    requires LogsFit(t, t, start) && NeverLeave(t.phases) * JoinNotBefore(t, start) == {} && ZeroAt(t, start, k)
    ensures LeavesPrevail(t, start)
  {
    CountStaysAbove(t, t, start, k);
  }

  /** Unless somebody came in and failed between the client's subscription and its insertion, it is all a matter of who
      is where: the events sent in that time add nothing. */
  lemma AheadBySetsIff(t: State, x: nat, start: nat)
    requires Reachable(t) && In(t, x) && t.phases[x] == Subscribed(start)
    requires start <= |t.log| && NeverLeave(t.phases) * JoinNotBefore(t, start) == {}
    ensures UnderflowAhead(t, start) <==> LeavesPrevail(t, start)
  {
    RoomFits(t, x, start);
    if k: nat :| ZeroAt(t, start, k) {
      EventsAddNothing(t, start, k);
    }
  }
}
