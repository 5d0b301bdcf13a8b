/**
 When a snapshot of the final board is sure to reach the channel: the exact condition on a state in which no
 `fetch_add` is ahead, over all schedules of what connections and throttle still have to do.
 */
module DeliveryFate {
  import opened Delivery
  import opened Wrappers
  import P = VoteProtocol
  import T = Throttle
  import V = DeliveryView
  import W = ThrottleDrain
  import Runs

  predicate InRange(vote: Option<nat>) {
    vote.Some? && vote.value < P.N_OPTIONS
  }

  /** The connection has still to perform a `fetch_add` for its present command. */
  predicate AddAhead(cl: P.Client) {
    match cl.pc
    case Increment(next) => next < P.N_OPTIONS || InRange(cl.vote)
    case Decrement(_) => InRange(cl.vote)
    case Remove(prev, _) => prev < P.N_OPTIONS
    case _ => false
  }

  /** The board has its final counts unless a new command comes. */
  predicate BoardFinal(s: State) {
    forall c :: c in s.votes.clients ==> !AddAhead(s.votes.clients[c])
  }

  /** A step towards the end of what has begun; no connection comes in and none takes up a command. */
  predicate Winding(step: Step) {
    step.Local? ==> step.vote.Advance?
  }

  ghost predicate NextWinding(s: State, s': State) {
    exists step :: Winding(step) && Enabled(s, step) && s' == Do(s, step)
  }

  /** However things are scheduled, once all has come to rest a snapshot of the final board is on the channel. */
  ghost predicate SureToShow(s: State) {
    forall s' :: Runs.Leads(NextWinding, s, s') && AtRest(s') ==> OnChannel(s', s'.votes.counts)
  }

  /** Submission `k` carries the board as it is. */
  predicate Current(s: State, k: nat) {
    k < |s.msgs| && s.msgs[k] == s.votes.counts
  }

  /** The connection is going to submit a snapshot of the final board: what it has loaded so far agrees with the board.
      */
  predicate ReadsFinal(s: State, c: nat) {
    c in s.votes.clients &&
    match s.votes.clients[c].pc
    case Increment(_) => true
    case Decrement(_) => true
    case Assign(_) => true
    case Remove(_, _) => true
    case Reading(got, _, _) => got <= s.votes.counts
    case Submitting(snap, _, _) => c !in s.sub && snap == s.votes.counts
    case _ => false
  }

  /** The connection is going to submit another snapshot. */
  predicate ReadsStale(s: State, c: nat) {
    c in s.votes.clients &&
    match s.votes.clients[c].pc
    case Reading(got, _, _) => !(got <= s.votes.counts)
    case Submitting(snap, _, _) => c !in s.sub && snap != s.votes.counts
    case _ => false
  }

  function ViewOf(s: State): V.View {
    V.View(
      s.thr,
      set k | 0 <= k < |s.msgs| && Current(s, k),
      set c | c in s.votes.clients && ReadsFinal(s, c),
      set c | c in s.votes.clients && ReadsStale(s, c))
  }

  // ---- What every step keeps ----

  ghost predicate FateInv(s: State) {
    Inv(s) && V.CasLate(s.thr)
  }

  lemma FateInvStep(s: State, step: Step)
    requires FateInv(s) && Enabled(s, step)
    ensures FateInv(Do(s, step))
  {
    InvStep(s, step);
    match step
    case Hand(_) => V.CasLateKept(s.thr, T.Submit);
    case Relay(task) => V.CasLateKept(s.thr, task);
    case _ =>
  }

  lemma ReachableFateInv(s: State)
    requires Reachable(s)
    ensures FateInv(s)
  {
    forall s0 | Init(s0) ensures FateInv(s0) {
      InvInit(s0);
    }
    forall s0, s1 | FateInv(s0) && Next(s0, s1) ensures FateInv(s1) {
      var step :| Enabled(s0, step) && s1 == Do(s0, step);
      FateInvStep(s0, step);
    }
    Runs.Always(Init, Next, FateInv, s);
  }

  lemma ViewValid(s: State)
    requires FateInv(s)
    ensures V.Valid(ViewOf(s))
  {
  }

  /** Without a `fetch_add` the connection's own standing does not change either. */
  lemma LocalKeepsReader(s: State, c: nat)
    requires FateInv(s) && Enabled(s, Local(P.Advance(c))) && !AddAhead(s.votes.clients[c])
    ensures
      var s' := Do(s, Local(P.Advance(c)));
      && s'.votes.adds == s.votes.adds
      && s'.votes.clients == s.votes.clients[c := s'.votes.clients[c]]
      && !AddAhead(s'.votes.clients[c])
      && (ReadsFinal(s', c) <==> ReadsFinal(s, c)) && (ReadsStale(s', c) <==> ReadsStale(s, c))
  {
    assert P.ClientFits(s.votes, s.votes.clients[c]);
    assert c !in s.sub;
  }

  lemma LocalKeepsView(s: State, c: nat)
    requires FateInv(s) && BoardFinal(s) && Enabled(s, Local(P.Advance(c)))
    ensures BoardFinal(Do(s, Local(P.Advance(c)))) && ViewOf(Do(s, Local(P.Advance(c)))) == ViewOf(s)
  {
    var s' := Do(s, Local(P.Advance(c)));
    assert !AddAhead(s.votes.clients[c]);
    LocalKeepsReader(s, c);
    forall d | d != c
      ensures (ReadsFinal(s', d) <==> ReadsFinal(s, d)) && (ReadsStale(s', d) <==> ReadsStale(s, d)) {
    }
  }

  lemma ResumeKeepsView(s: State, c: nat)
    requires FateInv(s) && BoardFinal(s) && Enabled(s, Resume(c))
    ensures BoardFinal(Do(s, Resume(c))) && ViewOf(Do(s, Resume(c))) == ViewOf(s)
  {
    var s' := Do(s, Resume(c));
    forall d ensures ReadsFinal(s', d) <==> ReadsFinal(s, d) {
    }
    forall d ensures ReadsStale(s', d) <==> ReadsStale(s, d) {
    }
  }

  lemma RelayInView(s: State, task: T.Step)
    requires BoardFinal(s) && Enabled(s, Relay(task))
    ensures BoardFinal(Do(s, Relay(task)))
    ensures V.Enabled(ViewOf(s), V.Task(task)) && ViewOf(Do(s, Relay(task))) == V.Do(ViewOf(s), V.Task(task))
  {
  }

  function HandStep(s: State, c: nat): V.Step {
    if ReadsFinal(s, c) then V.HandFinal(c) else V.HandStale(c)
  }

  lemma HandInView(s: State, c: nat)
    requires FateInv(s) && BoardFinal(s) && Enabled(s, Hand(c))
    ensures BoardFinal(Do(s, Hand(c)))
    ensures V.Enabled(ViewOf(s), HandStep(s, c)) && ViewOf(Do(s, Hand(c))) == V.Do(ViewOf(s), HandStep(s, c))
  {
    var s' := Do(s, Hand(c));
    forall d ensures ReadsFinal(s', d) <==> ReadsFinal(s, d) && d != c {
    }
    forall d ensures ReadsStale(s', d) <==> ReadsStale(s, d) && d != c {
    }
    var n := |s.msgs|;
    forall k: nat ensures Current(s', k) <==> Current(s, k) || (k == n && ReadsFinal(s, c)) {
    }
  }

  // ---- What makes a board final ----

  ghost predicate NoMoreAdds(s: State) {
    forall s' :: Runs.Leads(NextWinding, s, s') ==> s'.votes.adds == s.votes.adds
  }

  ghost predicate StaysFinal(s: State, t: State) {
    FateInv(t) && BoardFinal(t) && t.votes.adds == s.votes.adds
  }

  lemma FinalStays(s: State, step: Step)
    requires FateInv(s) && BoardFinal(s) && Winding(step) && Enabled(s, step)
    ensures StaysFinal(s, Do(s, step))
  {
    FateInvStep(s, step);
    match step
    case Local(vote) =>
      assert !AddAhead(s.votes.clients[vote.c]);
      LocalKeepsReader(s, vote.c);
      LocalKeepsView(s, vote.c);
    case Resume(c) => ResumeKeepsView(s, c);
    case Relay(task) => RelayInView(s, task);
    case Hand(c) => HandInView(s, c);
  }

  /** A connection with a `fetch_add` ahead gets to it in one step, or in two when its new option is out of range. */
  lemma AddComes(s: State, c: nat) returns (s': State)
    requires FateInv(s) && c in s.votes.clients && AddAhead(s.votes.clients[c])
    ensures Runs.Leads(NextWinding, s, s') && s'.votes.adds == s.votes.adds + 1
  {
    var step := Local(P.Advance(c));
    s' := Do(s, step);
    assert NextWinding(s, s');
    Runs.Stay(NextWinding, s);
    Runs.LeadsOn(NextWinding, s, s, s');
    if s'.votes.adds == s.votes.adds {
      var s'' := Do(s', step);
      assert NextWinding(s', s'');
      Runs.LeadsOn(NextWinding, s, s', s'');
      s' := s'';
    }
  }

  /** The board is final if and only if no continuation without a new command performs another `fetch_add`. */
  lemma BoardFinalIff(s: State)
    requires Reachable(s)
    ensures BoardFinal(s) <==> NoMoreAdds(s)
  {
    ReachableFateInv(s);
    if BoardFinal(s) {
      var good := t => StaysFinal(s, t);
      forall s0, s1 | good(s0) && NextWinding(s0, s1) ensures good(s1) {
        var step :| Winding(step) && Enabled(s0, step) && s1 == Do(s0, step);
        FinalStays(s0, step);
      }
      forall s' | Runs.Leads(NextWinding, s, s') ensures s'.votes.adds == s.votes.adds {
        Runs.AlwaysFrom(NextWinding, good, s, s');
      }
    } else {
      var c :| c in s.votes.clients && AddAhead(s.votes.clients[c]);
      var s' := AddComes(s, c);
    }
  }

  // ---- A safe state stays safe ----

  ghost predicate GoodState(s: State) {
    FateInv(s) && BoardFinal(s) && V.Safe(ViewOf(s))
  }

  lemma GoodStays(s: State, step: Step)
    requires GoodState(s) && Winding(step) && Enabled(s, step)
    ensures GoodState(Do(s, step))
  {
    FateInvStep(s, step);
    ViewValid(s);
    match step
    case Local(vote) => LocalKeepsView(s, vote.c);
    case Resume(c) => ResumeKeepsView(s, c);
    case Relay(task) =>
      RelayInView(s, task);
      V.TaskStaysSafe(ViewOf(s), task);
    case Hand(c) =>
      HandInView(s, c);
      V.HandKeepsRace(ViewOf(s), HandStep(s, c));
  }

  lemma RestInView(s: State)
    requires FateInv(s) && AtRest(s)
    ensures V.AtRest(ViewOf(s)) && (V.Safe(ViewOf(s)) <==> OnChannel(s, s.votes.counts))
  {
    RestIsQuiescent(s);
    ViewValid(s);
    V.SafeAtRest(ViewOf(s));
    if i :| 0 <= i < |s.thr.sh.chan| && Current(s, s.thr.sh.chan[i].id) {
      assert i in T.Positions(s.thr, s.thr.sh.chan[i].id);
    }
  }

  // ---- From an unsafe state some schedule misses the final board ----

  ghost function Total(cs: map<nat, P.Client>): nat
    decreases |cs|
  {
    if cs == map[] then 0
    else
      var c :| c in cs;
      P.StepsLeft(cs[c].pc) + Total(cs - {c})
  }

  lemma {:induction false} TotalAt(cs: map<nat, P.Client>, c: nat)
    requires c in cs
    ensures Total(cs) == P.StepsLeft(cs[c].pc) + Total(cs - {c})
    decreases |cs|
  {
    var d :| d in cs && Total(cs) == P.StepsLeft(cs[d].pc) + Total(cs - {d});
    if d == c {
    } else {
      TotalAt(cs - {d}, c);
      TotalAt(cs - {c}, d);
      assert cs - {d} - {c} == cs - {c} - {d};
    }
  }

  lemma TotalUpdate(cs: map<nat, P.Client>, c: nat, cl: P.Client)
    requires c in cs
    ensures Total(cs[c := cl]) == Total(cs) - P.StepsLeft(cs[c].pc) + P.StepsLeft(cl.pc)
  {
    TotalAt(cs, c);
    TotalAt(cs[c := cl], c);
    assert cs[c := cl] - {c} == cs - {c};
  }

  /** Some connection can go on without the throttle. */
  predicate ByItself(s: State, step: Step) {
    Winding(step) && Enabled(s, step) && (step.Local? || step.Resume?)
  }

  lemma NextUnsafe(s: State) returns (step: Step)
    requires FateInv(s) && BoardFinal(s) && !V.Safe(ViewOf(s)) && !AtRest(s)
    ensures Winding(step) && Enabled(s, step)
    ensures BoardFinal(Do(s, step)) && !V.Safe(ViewOf(Do(s, step)))
  {
    ViewValid(s);
    if step' :| ByItself(s, step') {
      step := step';
      match step
      case Local(vote) => LocalKeepsView(s, vote.c);
      case Resume(c) => ResumeKeepsView(s, c);
    } else {
      NotAtRestInView(s);
      var vstep := V.UnsafeGoesOn(ViewOf(s));
      step := FromView(s, vstep);
    }
  }

  /** A connection that cannot go on by itself is about to hand over, or waits for its submission. */
  lemma BusyInView(s: State, c: nat)
    requires FateInv(s) && forall step :: !ByItself(s, step)
    requires c in s.votes.clients && !s.votes.clients[c].pc.Idle? && !s.votes.clients[c].pc.Gone?
    ensures ReadsFinal(s, c) || ReadsStale(s, c) || (c in s.sub && !s.thr.subs[s.sub[c]].Returned?)
  {
    assert P.ClientFits(s.votes, s.votes.clients[c]);
    assert !ByItself(s, Local(P.Advance(c)));
    assert !ByItself(s, Resume(c));
  }

  lemma NotAtRestInView(s: State)
    requires FateInv(s) && !AtRest(s) && forall step :: !ByItself(s, step)
    ensures !V.AtRest(ViewOf(s))
  {
    if c :| c in s.votes.clients && !s.votes.clients[c].pc.Idle? && !s.votes.clients[c].pc.Gone? {
      BusyInView(s, c);
      assert ReadsFinal(s, c) ==> c in ViewOf(s).finalReaders;
      assert ReadsStale(s, c) ==> c in ViewOf(s).staleReaders;
    }
  }

  lemma FromView(s: State, vstep: V.Step) returns (step: Step)
    requires FateInv(s) && BoardFinal(s) && V.Enabled(ViewOf(s), vstep) && forall step :: !ByItself(s, step)
    ensures Winding(step) && Enabled(s, step) && !step.Local? && !step.Resume?
    ensures BoardFinal(Do(s, step)) && ViewOf(Do(s, step)) == V.Do(ViewOf(s), vstep)
  {
    match vstep
    case Task(task) =>
      step := Relay(task);
      RelayInView(s, task);
    case HandFinal(c) =>
      assert !ByItself(s, Local(P.Advance(c)));
      assert P.ClientFits(s.votes, s.votes.clients[c]);
      step := Hand(c);
      HandInView(s, c);
    case HandStale(c) =>
      assert !ByItself(s, Local(P.Advance(c)));
      assert P.ClientFits(s.votes, s.votes.clients[c]);
      step := Hand(c);
      HandInView(s, c);
  }

  lemma AdvanceShortens(v: P.State, c: nat)
    requires P.Inv(v) && P.Enabled(v, P.Advance(c))
    ensures Total(P.Do(v, P.Advance(c)).clients) < Total(v.clients)
    ensures P.Do(v, P.Advance(c)).clients.Keys == v.clients.Keys
  {
    var v' := P.Do(v, P.Advance(c));
    assert P.ClientFits(v, v.clients[c]);
    P.StepsOn(v, c);
    assert v'.clients == v.clients[c := v'.clients[c]];
    TotalUpdate(v.clients, c, v'.clients[c]);
  }

  /** Connections that have no submission in progress. */
  function Unhanded(s: State): set<nat> {
    s.votes.clients.Keys - s.sub.Keys
  }

  lemma HandShortens(s: State, c: nat)
    requires Enabled(s, Hand(c))
    ensures |Unhanded(Do(s, Hand(c)))| < |Unhanded(s)|
  {
    assert Unhanded(Do(s, Hand(c))) == Unhanded(s) - {c};
    assert c in Unhanded(s);
  }

  /** The lexicographic measure goes down. */
  ghost predicate Shorter(s: State, s': State) {
    || Total(s'.votes.clients) < Total(s.votes.clients)
    || (s'.votes == s.votes && |Unhanded(s')| < |Unhanded(s)|)
    || (s'.votes == s.votes && s'.sub == s.sub && W.Work(s'.thr) < W.Work(s.thr))
  }

  lemma RelayShortens(s: State, task: T.Step)
    requires Enabled(s, Relay(task))
    ensures Shorter(s, Do(s, Relay(task)))
  {
    W.StepsRunOut(s.thr, task);
  }

  lemma WindingShortens(s: State, step: Step)
    requires Inv(s) && Winding(step) && Enabled(s, step)
    ensures Shorter(s, Do(s, step))
  {
    match step
    case Local(vote) => AdvanceShortens(s.votes, vote.c);
    case Resume(c) => AdvanceShortens(s.votes, c);
    case Hand(c) => HandShortens(s, c);
    case Relay(task) => RelayShortens(s, task);
  }

  lemma {:induction false} MissesBoard(s0: State, s: State) returns (s': State)
    requires FateInv(s) && BoardFinal(s) && !V.Safe(ViewOf(s)) && Runs.Leads(NextWinding, s0, s)
    ensures Runs.Leads(NextWinding, s0, s') && AtRest(s') && !OnChannel(s', s'.votes.counts)
    decreases Total(s.votes.clients), |Unhanded(s)|, W.Work(s.thr)
  {
    if AtRest(s) {
      RestInView(s);
      s' := s;
    } else {
      var step := NextUnsafe(s);
      FateInvStep(s, step);
      WindingShortens(s, step);
      Runs.LeadsOn(NextWinding, s0, s, Do(s, step));
      s' := MissesBoard(s0, Do(s, step));
    }
  }

  // ---- Main results ----

  lemma GoodForGood(s: State, s': State)
    requires GoodState(s) && Runs.Leads(NextWinding, s, s')
    ensures GoodState(s')
  {
    forall s0, s1 | GoodState(s0) && NextWinding(s0, s1) ensures GoodState(s1) {
      var step :| Winding(step) && Enabled(s0, step) && s1 == Do(s0, step);
      GoodStays(s0, step);
    }
    Runs.AlwaysFrom(NextWinding, GoodState, s, s');
  }

  /** The exact condition under which a snapshot of the final board reaches the channel whatever the schedule, from any
      reachable state with no `fetch_add` ahead: such a snapshot is on its way; or one is owed, and either no stale
      snapshot may still be written over it, or the only one that may cannot avoid that a submission wins first. */
  lemma FinalBoardSureIff(s: State)
    requires Reachable(s) && BoardFinal(s)
    ensures SureToShow(s) <==> V.Safe(ViewOf(s))
  {
    ReachableFateInv(s);
    if V.Safe(ViewOf(s)) {
      forall s' | Runs.Leads(NextWinding, s, s') && AtRest(s') ensures OnChannel(s', s'.votes.counts) {
        GoodForGood(s, s');
        RestInView(s');
      }
    } else {
      Runs.Stay(NextWinding, s);
      var s' := MissesBoard(s, s);
    }
  }
}
