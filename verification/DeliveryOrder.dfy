/**
 The documentation says the throttle never drops the latest state. Taken over the whole path from the counters to the
 channel this fails: a snapshot read earlier can be submitted later and replace the newer one in the mailbox.
 It holds when connections do not overlap between their first `fetch_add` and the return of their submission.
 */
module DeliveryOrder {
  import opened Sets
  import opened Wrappers
  import opened Delivery
  import B = VoteBoard
  import C = TimedThrottle
  import P = VoteProtocol
  import T = Throttle
  import W = ThrottleDrain
  import Runs

  // ---- The final board can miss the channel ----

  lemma Reach(s: State, step: Step) returns (s': State)
    requires Reachable(s) && Enabled(s, step)
    ensures Reachable(s') && s' == Do(s, step)
  {
    s' := Do(s, step);
    Runs.Extend(Init, Next, s, s');
  }

  lemma {:induction false} ReachAlone(s: State, c: nat)
    requires Reachable(s) && c in s.votes.clients
    ensures Reachable(s.(votes := B.Alone(s.votes, c)))
    decreases B.ToSnapshot(s.votes.clients[c].pc)
  {
    if P.Enabled(s.votes, P.Advance(c)) && !s.votes.clients[c].pc.Submitting? {
      var s' := Reach(s, Local(P.Advance(c)));
      ReachAlone(s', c);
    }
  }

  /** Connection `c` casts a vote and completes its snapshot without interruption. */
  lemma ReachVoted(s: State, c: nat, o: nat) returns (s': State)
    requires Reachable(s) && |s.votes.counts| == P.N_OPTIONS && c in s.votes.clients
    requires s.votes.clients[c] == P.Client(None, P.Idle)
    requires forall i :: 0 <= i < P.N_OPTIONS ==> 0 <= s.votes.counts[i]
    ensures Reachable(s') && |s'.votes.counts| == P.N_OPTIONS && s' == s.(votes := s'.votes)
    ensures forall i :: 0 <= i < P.N_OPTIONS ==> s'.votes.counts[i] == s.votes.counts[i] + Bit(i == o)
    ensures s'.votes.clients ==
            s.votes.clients[c := P.Client(Some(o), P.Submitting(s'.votes.counts, s'.votes.adds, false))]
  {
    var s1 := Reach(s, Local(P.Begin(c, P.CastVote(o))));
    ReachAlone(s1, c);
    s' := s1.(votes := B.Alone(s1.votes, c));
    B.AloneVote(s.votes, c, o);
    B.AloneRest(s.votes, c, o);
  }

  lemma {:induction false} ReachSubAlone(s: State, k: nat, now: nat)
    requires Reachable(s) && k < |s.thr.subs|
    ensures Reachable(s.(thr := C.AloneSub(s.thr, k, now)))
    decreases W.SubWork(s.thr.subs[k])
  {
    if !s.thr.subs[k].Returned? {
      var s' := Reach(s, Relay(T.Proceed(k, now)));
      ReachSubAlone(s', k, now);
    }
  }

  lemma {:induction false} ReachFlushAlone(s: State, f: nat, now: nat)
    requires Reachable(s) && f < |s.thr.flushers|
    ensures Reachable(s.(thr := C.AloneFlush(s.thr, f, now)))
    decreases W.FlushWork(s.thr.flushers[f])
  {
    if !s.thr.flushers[f].Done? {
      var s' := Reach(s, Relay(T.Flush(f, now)));
      ReachFlushAlone(s', f, now);
    }
  }

  /** Connection `c` submits its finished snapshot and gets back to its loop without interruption. */
  lemma ReachSubmitted(s: State, c: nat, now: nat) returns (s': State)
    requires Reachable(s) && Ready(s, c) && c !in s.sub && !s.votes.clients[c].pc.closing
    ensures Reachable(s') && s'.sub == s.sub && s'.msgs == s.msgs + [s.votes.clients[c].pc.snap]
    ensures s'.votes == P.Put(s.votes, c, s.votes.clients[c].(pc := P.Idle))
    ensures s'.thr.sh == C.SubmitNow(s.thr.sh, |s.thr.subs|, now) && |s'.thr.subs| == |s.thr.subs| + 1
    ensures s'.thr.flushers == s.thr.flushers +
            if C.Schedules(s.thr.sh, now) then [T.Sleeping(T.Delay(now, s.thr.sh.last))] else []
  {
    var k := |s.thr.subs|;
    var s1 := Reach(s, Hand(c));
    ReachSubAlone(s1, k, now);
    C.SubmitIsUninterrupted(s.thr, now);
    var s2 := s1.(thr := C.AloneSub(s1.thr, k, now));
    s' := Reach(s2, Resume(c));
    assert s'.sub == s.sub;
  }

  function Voter(snap: seq<int>, since: nat): P.Client {
    P.Client(Some(0), P.Submitting(snap, since, false))
  }

  /** Connection 0 has voted for option 0 and read its snapshot. */
  lemma FirstRead() returns (s: State, n0: nat)
    ensures Reachable(s) && s.votes.counts == [1, 0, 0, 0]
    ensures s.sub == map[] && s.msgs == [] && s.thr == T.State(T.EMPTY, [], [], map[], [])
    ensures s.votes.clients == map[0 := Voter([1, 0, 0, 0], n0), 1 := P.Client(None, P.Idle)]
  {
    s := State(P.State([0, 0, 0, 0], 0, map[]), T.State(T.EMPTY, [], [], map[], []), map[], [], []);
    Runs.Start(Init, Next, s);
    s := Reach(s, Local(P.Connect(0)));
    s := Reach(s, Local(P.Connect(1)));
    s := ReachVoted(s, 0, 0);
    n0 := s.votes.adds;
    assert s.votes.counts == [1, 0, 0, 0];
  }

  /** Then connection 1 did the same. */
  lemma BothRead() returns (s: State, n0: nat, n1: nat)
    ensures Reachable(s) && s.votes.counts == [2, 0, 0, 0]
    ensures s.sub == map[] && s.msgs == [] && s.thr == T.State(T.EMPTY, [], [], map[], [])
    ensures s.votes.clients == map[0 := Voter([1, 0, 0, 0], n0), 1 := Voter([2, 0, 0, 0], n1)]
  {
    s, n0 := FirstRead();
    s := ReachVoted(s, 1, 0);
    n1 := s.votes.adds;
    assert s.votes.counts == [2, 0, 0, 0];
  }

  /** The newer snapshot waits in the mailbox and is replaced by the older one. */
  lemma NewerReplaced() returns (s: State)
    ensures Reachable(s) && s.votes.counts == [2, 0, 0, 0] && s.msgs == [[2, 0, 0, 0], [1, 0, 0, 0]]
    ensures forall c :: c in s.votes.clients ==> s.votes.clients[c].pc.Idle?
    ensures s.thr.sh == T.Shared(0, Some(1), true, []) && |s.thr.flushers| == 1 && s.thr.flushers[0].Sleeping?
  {
    var n0, n1;
    s, n0, n1 := BothRead();
    s := ReachSubmitted(s, 1, 0);
    s := ReachSubmitted(s, 0, 0);
  }

  /** Two voters, everything at rest: the board says two votes, and the only snapshot on the channel says one. */
  lemma FinalBoardMissed() returns (s: State)
    ensures Reachable(s) && AtRest(s) && s.votes.counts == [2, 0, 0, 0]
    ensures |s.thr.sh.chan| == 1 && s.thr.sh.chan[0].id < |s.msgs| && s.msgs[s.thr.sh.chan[0].id] == [1, 0, 0, 0]
    ensures !OnChannel(s, s.votes.counts)
  {
    s := NewerReplaced();
    ReachFlushAlone(s, 0, 50);
    C.FlushIsUninterrupted(s.thr, 0, 50);
    s := s.(thr := C.AloneFlush(s.thr, 0, 50));
  }

  // ---- It cannot when connections do not overlap ----

  predicate Busy(s: State, c: nat) {
    c in s.votes.clients && !s.votes.clients[c].pc.Idle? && !s.votes.clients[c].pc.Gone?
  }

  ghost predicate OneAtATime(s: State) {
    forall c, d :: Busy(s, c) && Busy(s, d) ==> c == d
  }

  /** A step after which at most one connection is between its command and the return of its submission. */
  ghost predicate SerialNext(s: State, s': State) {
    Next(s, s') && OneAtATime(s')
  }

  /** The submission that took effect last carries the present board. */
  predicate LatestFresh(s: State) {
    s.votes.adds > 0 ==> s.thr.order != [] && Fresh(s, LastEffect(s))
  }

  /** What the busy connection has done so far. */
  predicate BusyFits(s: State, c: nat)
    requires c in s.votes.clients
  {
    match s.votes.clients[c].pc
    case Increment(_) => LatestFresh(s)
    case Remove(_, _) => LatestFresh(s)
    case Reading(_, since, _) => since == s.votes.adds
    case Submitting(_, since, _) =>
      since == s.votes.adds &&
      (c in s.sub && s.sub[c] in s.thr.order ==> LastEffect(s) == s.sub[c])
    case _ => true
  }

  ghost predicate Serial(s: State) {
    && OneAtATime(s)
    && (forall c :: Busy(s, c) ==> BusyFits(s, c))
    && ((forall c :: !Busy(s, c)) ==> LatestFresh(s))
  }

  ghost predicate SerialInv(s: State) {
    Inv(s) && Serial(s)
  }

  lemma SerialLocal(s: State, vote: P.Step)
    requires Coupled(s) && Serial(s) && Enabled(s, Local(vote)) && OneAtATime(Do(s, Local(vote)))
    ensures Serial(Do(s, Local(vote)))
  {
    var s' := Do(s, Local(vote));
    assert forall d :: d != vote.c ==> (Busy(s', d) <==> Busy(s, d));
    if vote.Advance? {
      assert Busy(s, vote.c) && Busy(s', vote.c);
      assert vote.c !in s.sub;
    } else {
      assert !Busy(s, vote.c);
      assert Busy(s', vote.c) ==> forall d :: !Busy(s, d);
    }
  }

  lemma SerialHand(s: State, c: nat)
    requires Coupled(s) && Serial(s) && Enabled(s, Hand(c))
    requires |s.thr.subs| !in s.thr.order
    ensures Serial(Do(s, Hand(c)))
  {
    var s' := Do(s, Hand(c));
    assert Busy(s, c) && forall d :: Busy(s', d) <==> Busy(s, d);
  }

  lemma OrderGrows(t: T.State, task: T.Step)
    requires T.Enabled(t, task) && !task.Submit?
    ensures
      || T.Do(t, task).order == t.order
      || (task.Proceed? && !t.subs[task.k].Returned? && T.Do(t, task).order == t.order + [task.k])
  {
  }

  lemma SerialRelay(s: State, task: T.Step)
    requires Coupled(s) && Serial(s) && Enabled(s, Relay(task))
    ensures Serial(Do(s, Relay(task)))
  {
    var s' := Do(s, Relay(task));
    OrderGrows(s.thr, task);
    assert forall d :: Busy(s', d) <==> Busy(s, d);
    if s'.thr.order != s.thr.order {
      var c :| c in s.sub && s.sub[c] == task.k;
      assert Busy(s, c);
    }
    forall d | Busy(s', d) ensures BusyFits(s', d) {
      assert Busy(s, d) && BusyFits(s, d);
    }
  }

  lemma SerialResume(s: State, c: nat)
    requires Coupled(s) && Serial(s) && Enabled(s, Resume(c))
    requires s.sub[c] in s.thr.order
    ensures Serial(Do(s, Resume(c)))
  {
    var s' := Do(s, Resume(c));
    assert Busy(s, c) && !Busy(s', c);
    assert forall d :: Busy(s', d) ==> Busy(s, d);
  }

  lemma SerialStep(s: State, step: Step)
    requires SerialInv(s) && Enabled(s, step) && OneAtATime(Do(s, step))
    ensures SerialInv(Do(s, step))
  {
    InvStep(s, step);
    match step
    case Local(vote) => SerialLocal(s, vote);
    case Hand(c) =>
      assert |s.thr.subs| !in s.thr.order;
      SerialHand(s, c);
    case Relay(task) => SerialRelay(s, task);
    case Resume(c) =>
      assert !T.InFlight(s.thr, s.sub[c]) && s.sub[c] in s.thr.order;
      SerialResume(s, c);
  }

  /** If connections never overlap between their command and the return of their submission, then once everything
      is at rest the final board is on the channel, carried by the submission that took effect last. */
  lemma SerialDelivery(s: State)
    requires Runs.Reachable(Init, SerialNext, s) && AtRest(s) && s.votes.adds > 0
    ensures s.thr.order != [] && Fresh(s, LastEffect(s)) && OnChannel(s, s.votes.counts)
  {
    forall s0 | Init(s0) ensures SerialInv(s0) {
      InvInit(s0);
    }
    forall s0, s1 | SerialInv(s0) && SerialNext(s0, s1) ensures SerialInv(s1) {
      var step :| Enabled(s0, step) && s1 == Do(s0, step);
      SerialStep(s0, step);
    }
    Runs.Always(Init, SerialNext, SerialInv, s);
    assert forall c :: !Busy(s, c);
    FreshOnChannel(s);
  }
}
