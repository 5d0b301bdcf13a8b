/**
 The throttled broadcast of vote snapshots, at the grain of one atomic or lock operation a step.

 A submission (`broadcast_vote_throttled`) takes the fast path when the last send is at least 50 ms old
 and it wins the compare-exchange on its time; otherwise it leaves its snapshot in a one-place mailbox
 and makes sure a delayed flush is scheduled. Any number of submissions and flushers interleave, and
 every clock reading is arbitrary; so it can be taken together with the shared access that follows it.
 (`ThrottleClock`, where readings come from one clock, gives them steps of their own.)

 Submissions are numbered in the order they begin; submission `k` carries snapshot number `k`.
 */
module Throttle {
  import opened Sets
  import opened Wrappers
  import Runs

  const THROTTLE_MS: nat := 50

  /** A snapshot on the channel. `overtook` records that it was sent on the fast path while an
      older one was still waiting in the mailbox. */
  datatype Entry = Entry(id: nat, flushed: bool, at: nat, overtook: bool)

  /** The shared fields of `Room` that the protocol works on; `chan` is the channel as a log. */
  datatype Shared = Shared(last: nat, pending: Option<nat>, scheduled: bool, chan: seq<Entry>)

  const EMPTY := Shared(0, None, false, [])

  function SaturatingSub(a: nat, b: nat): nat {
    if a < b then 0 else a - b
  }

  /** How long a flusher sleeps. */
  function Delay(now: nat, last: nat): (d: nat)
    ensures 1 <= d <= THROTTLE_MS
  {
    var d := SaturatingSub(THROTTLE_MS, SaturatingSub(now, last));
    if d < 1 then 1 else d
  }

  /** The flusher wakes up 50 ms after the last send, or one millisecond from now if that time is over; with a clock
      behind the last send it sleeps for 50 ms. */
  lemma WakeUpTime(now: nat, last: nat)
    ensures last <= now ==> now + Delay(now, last) == if now >= last + 50 then now + 1 else last + 50
    ensures now < last ==> Delay(now, last) == 50
  {
  }

  datatype SubPc =
    | Start
    | Cas(now: nat, seen: nat)
    | Send(now: nat)
    | Pend
    | Swap
    | Arm
    | Returned

  datatype FlushPc =
    | Sleeping(delay: nat)
    | Taking
    | Stamping(id: nat)
    | Sending(id: nat, now: nat)
    | Done

  /** `lost[k]` is the submission whose mailbox write replaced `k`; `order` lists the submissions in the
      order they took effect (the fast send, or the mailbox write). */
  datatype State = State(
    sh: Shared,
    subs: seq<SubPc>,
    flushers: seq<FlushPc>,
    lost: map<nat, nat>,
    order: seq<nat>)

  datatype Step =
    | Submit
    | Proceed(k: nat, now: nat)
    | Flush(f: nat, now: nat)

  predicate Init(s: State) {
    s == State(EMPTY, [], [], map[], [])
  }

  predicate Enabled(s: State, step: Step) {
    match step
    case Submit => true
    case Proceed(k, _) => k < |s.subs| && s.subs[k] != Returned
    case Flush(f, _) => f < |s.flushers| && s.flushers[f] != Done
  }

  function At(s: State, k: nat, pc: SubPc): State
    requires k < |s.subs|
  {
    s.(subs := s.subs[k := pc])
  }

  function FastSend(sh: Shared, k: nat, now: nat): Shared {
    sh.(chan := sh.chan + [Entry(k, false, now, sh.pending.Some?)])
  }

  function ProceedSub(s: State, k: nat, now: nat): State
    requires Enabled(s, Proceed(k, now))
  {
    match s.subs[k]
    case Start =>
      At(s, k, if SaturatingSub(now, s.sh.last) >= THROTTLE_MS then Cas(now, s.sh.last) else Pend)
    case Cas(now0, seen) =>
      if s.sh.last == seen then At(s.(sh := s.sh.(last := now0)), k, Send(now0)) else At(s, k, Pend)
    case Send(now0) =>
      At(s.(sh := FastSend(s.sh, k, now0), order := s.order + [k]), k, Returned)
    case Pend =>
      At(s.(sh := s.sh.(pending := Some(k)),
            lost := if s.sh.pending.Some? then s.lost[s.sh.pending.value := k] else s.lost,
            order := s.order + [k]), k, Swap)
    case Swap =>
      At(s.(sh := s.sh.(scheduled := true)), k, if s.sh.scheduled then Returned else Arm)
    case Arm =>
      At(s.(flushers := s.flushers + [Sleeping(Delay(now, s.sh.last))]), k, Returned)
    case Returned => s
  }

  function AtF(s: State, f: nat, pc: FlushPc): State
    requires f < |s.flushers|
  {
    s.(flushers := s.flushers[f := pc])
  }

  function ProceedFlush(s: State, f: nat, now: nat): State
    requires Enabled(s, Flush(f, now))
  {
    match s.flushers[f]
    case Sleeping(_) => AtF(s.(sh := s.sh.(scheduled := false)), f, Taking)
    case Taking =>
      if s.sh.pending.Some?
      then AtF(s.(sh := s.sh.(pending := None)), f, Stamping(s.sh.pending.value))
      else AtF(s, f, Done)
    case Stamping(id) => AtF(s.(sh := s.sh.(last := now)), f, Sending(id, now))
    case Sending(id, now0) =>
      AtF(s.(sh := s.sh.(chan := s.sh.chan + [Entry(id, true, now0, false)])), f, Done)
    case Done => s
  }

  function Do(s: State, step: Step): State
    requires Enabled(s, step)
  {
    match step
    case Submit => s.(subs := s.subs + [Start])
    case Proceed(k, now) => ProceedSub(s, k, now)
    case Flush(f, now) => ProceedFlush(s, f, now)
  }

  ghost predicate Next(s: State, s': State) {
    exists step :: Enabled(s, step) && s' == Do(s, step)
  }

  /** A step of a task that is already there; no new submission arrives. */
  ghost predicate Quiet(s: State, s': State) {
    exists step: Step :: !step.Submit? && Enabled(s, step) && s' == Do(s, step)
  }

  ghost predicate Reachable(s: State) {
    Runs.Reachable(Init, Next, s)
  }

  // ---- No flush is lost ----

  /** Won the flag swap and has not spawned its flusher yet. */
  function Arming(s: State): set<nat> {
    set k | 0 <= k < |s.subs| && s.subs[k].Arm?
  }

  /** Spawned and has not reset the flag yet. */
  function Asleep(s: State): set<nat> {
    set f | 0 <= f < |s.flushers| && s.flushers[f].Sleeping?
  }

  ghost predicate OneOwnerOfFlag(s: State) {
    |Arming(s)| + |Asleep(s)| == Bit(s.sh.scheduled)
  }

  /** Someone is still going to empty the mailbox: a submitter between its mailbox write and its flag swap,
      or a flush that has not done its take. */
  ghost predicate Rescue(s: State) {
    || (exists k :: 0 <= k < |s.subs| && (s.subs[k].Swap? || s.subs[k].Arm?))
    || (exists f :: 0 <= f < |s.flushers| && (s.flushers[f].Sleeping? || s.flushers[f].Taking?))
  }

  ghost predicate FlagInv(s: State) {
    && OneOwnerOfFlag(s)
    && (s.sh.pending.Some? ==> Rescue(s))
  }

  lemma OwnerKept(s: State, step: Step)
    requires OneOwnerOfFlag(s) && Enabled(s, step)
    ensures OneOwnerOfFlag(Do(s, step))
  {
    var s' := Do(s, step);
    match step
    case Submit =>
      assert Arming(s') == Arming(s) && Asleep(s') == Asleep(s);
    case Proceed(k, _) =>
      SetUpdate(Arming(s), Arming(s'), k);
      SetUpdate(Asleep(s), Asleep(s'), |s.flushers|);
    case Flush(f, _) =>
      assert Arming(s') == Arming(s);
      SetUpdate(Asleep(s), Asleep(s'), f);
  }

  /** If the flag is up, its owner is a rescuer. */
  lemma FlagRescues(s: State)
    requires OneOwnerOfFlag(s) && s.sh.scheduled
    ensures Rescue(s)
  {
    if Arming(s) == {} {
      var f :| f in Asleep(s);
    } else {
      var k :| k in Arming(s);
    }
  }

  lemma RescueKept(s: State, step: Step)
    requires FlagInv(s) && Enabled(s, step)
    ensures Do(s, step).sh.pending.Some? ==> Rescue(Do(s, step))
  {
    var s' := Do(s, step);
    OwnerKept(s, step);
    if s'.sh.pending.Some? {
      if s'.sh.scheduled {
        FlagRescues(s');
      } else if step.Flush? && s.flushers[step.f].Sleeping? {
        assert s'.flushers[step.f].Taking?;
      } else if step.Proceed? && s.subs[step.k].Pend? {
        assert s'.subs[step.k].Swap?;
      } else {
        assert Rescue(s);
        if k :| 0 <= k < |s.subs| && (s.subs[k].Swap? || s.subs[k].Arm?) {
          assert step.Proceed? && step.k == k ==> s'.flushers[|s.flushers|].Sleeping?;
          assert !(step.Proceed? && step.k == k) ==> s'.subs[k] == s.subs[k];
        } else {
          var f :| 0 <= f < |s.flushers| && (s.flushers[f].Sleeping? || s.flushers[f].Taking?);
          assert s'.flushers[f] == s.flushers[f];
        }
      }
    }
  }

  // ---- Accounting: every submission is in exactly one place ----

  /** The submission has not taken effect yet. */
  predicate InFlight(s: State, k: nat) {
    k < |s.subs| && (s.subs[k].Start? || s.subs[k].Cas? || s.subs[k].Send? || s.subs[k].Pend?)
  }

  predicate Carries(pc: FlushPc, k: nat) {
    match pc
    case Stamping(id) => id == k
    case Sending(id, _) => id == k
    case _ => false
  }

  /** Flushers that took `k` out of the mailbox and have not sent it. */
  function Carriers(s: State, k: nat): set<nat> {
    set f | 0 <= f < |s.flushers| && Carries(s.flushers[f], k)
  }

  /** Positions of `k` on the channel. */
  function Positions(s: State, k: nat): set<nat> {
    set i | 0 <= i < |s.sh.chan| && s.sh.chan[i].id == k
  }

  /** In how many of the five places submission `k` is: in flight, in the mailbox, in the hands of a
      flusher, on the channel, or replaced by a later mailbox write. */
  function Places(s: State, k: nat): nat {
    Bit(InFlight(s, k)) + Bit(s.sh.pending == Some(k)) + |Carriers(s, k)| + |Positions(s, k)| + Bit(k in s.lost)
  }

  ghost predicate Accounted(s: State) {
    forall k: nat :: Places(s, k) == Bit(k < |s.subs|)
  }

  lemma AccountedSend(s: State, j: nat, now: nat, k: nat)
    requires Places(s, k) == Bit(k < |s.subs|) && j < |s.subs| && s.subs[j].Send?
    ensures Places(ProceedSub(s, j, now), k) == Bit(k < |s.subs|)
  {
    var s' := ProceedSub(s, j, now);
    assert Carriers(s', k) == Carriers(s, k);
    SetUpdate(Positions(s, k), Positions(s', k), |s.sh.chan|);
    assert |s.sh.chan| in Positions(s', j);
  }

  lemma AccountedProceed(s: State, j: nat, now: nat, k: nat)
    requires Places(s, k) == Bit(k < |s.subs|) && Places(s, j) == 1
    requires Enabled(s, Proceed(j, now)) && !s.subs[j].Send?
    ensures Places(ProceedSub(s, j, now), k) == Bit(k < |s.subs|)
  {
    var s' := ProceedSub(s, j, now);
    assert Carriers(s', k) == Carriers(s, k);
    assert Positions(s', k) == Positions(s, k);
  }

  lemma AccountedFlush(s: State, f: nat, now: nat, k: nat)
    requires Places(s, k) == Bit(k < |s.subs|) && Enabled(s, Flush(f, now))
    ensures Places(ProceedFlush(s, f, now), k) == Bit(k < |s.subs|)
  {
    var s' := ProceedFlush(s, f, now);
    SetUpdate(Carriers(s, k), Carriers(s', k), f);
    SetUpdate(Positions(s, k), Positions(s', k), |s.sh.chan|);
  }

  lemma AccountedKept(s: State, step: Step)
    requires Accounted(s) && Enabled(s, step)
    ensures Accounted(Do(s, step))
  {
    var s' := Do(s, step);
    forall k: nat ensures Places(s', k) == Bit(k < |s'.subs|) {
      assert Places(s, k) == Bit(k < |s.subs|);
      match step
      case Submit =>
        assert Carriers(s', k) == Carriers(s, k) && Positions(s', k) == Positions(s, k);
      case Proceed(j, now) =>
        assert Places(s, j) == Bit(j < |s.subs|);
        if s.subs[j].Send? {
          AccountedSend(s, j, now, k);
        } else {
          AccountedProceed(s, j, now, k);
        }
      case Flush(f, now) =>
        AccountedFlush(s, f, now, k);
    }
  }

  // ---- The order in which submissions take effect ----

  predicate Before(order: seq<nat>, a: nat, b: nat) {
    exists i, j :: 0 <= i < j < |order| && order[i] == a && order[j] == b
  }

  /** `order` lists each submission that took effect once; what a mailbox write replaced took effect earlier. */
  ghost predicate Ordered(s: State) {
    && (forall k: nat :: k in s.order <==> k < |s.subs| && !InFlight(s, k))
    && (forall i, j :: 0 <= i < j < |s.order| ==> s.order[i] != s.order[j])
    && (forall k :: k in s.lost ==> Before(s.order, k, s.lost[k]))
    && (s.order != [] ==> s.order[|s.order| - 1] !in s.lost)
  }

  /** Whatever took effect after the waiting snapshot went straight to the channel. */
  ghost predicate Overtaken(s: State) {
    (s.sh.pending.Some? && s.order != [] && s.order[|s.order| - 1] != s.sh.pending.value) ==>
      Positions(s, s.order[|s.order| - 1]) != {}
  }

  lemma BeforeGrows(order: seq<nat>, k: nat, a: nat, b: nat)
    requires Before(order, a, b)
    ensures Before(order + [k], a, b)
  {
    var i, j :| 0 <= i < j < |order| && order[i] == a && order[j] == b;
    assert (order + [k])[i] == a && (order + [k])[j] == b;
  }

  lemma OnlyInFlight(s: State, k: nat)
    requires Accounted(s) && InFlight(s, k)
    ensures k !in s.lost && s.sh.pending != Some(k) && Positions(s, k) == {} && Carriers(s, k) == {}
  {
    assert Places(s, k) == Bit(k < |s.subs|);
  }

  lemma OnlyWaiting(s: State, k: nat)
    requires Accounted(s) && s.sh.pending == Some(k)
    ensures k < |s.subs| && k !in s.lost && !InFlight(s, k)
  {
    assert Places(s, k) == Bit(k < |s.subs|);
  }

  lemma MembersKept(s: State, step: Step)
    requires (forall k: nat :: k in s.order <==> k < |s.subs| && !InFlight(s, k)) && Enabled(s, step)
    ensures forall k: nat :: k in Do(s, step).order <==> k < |Do(s, step).subs| && !InFlight(Do(s, step), k)
  {
    var s' := Do(s, step);
    forall k: nat ensures k in s'.order <==> k < |s'.subs| && !InFlight(s', k) {
      assert k in s.order <==> k < |s.subs| && !InFlight(s, k);
    }
  }

  lemma LostKept(s: State, k: nat, now: nat)
    requires Ordered(s) && Accounted(s) && k < |s.subs| && s.subs[k].Pend?
    ensures forall a :: a in Do(s, Proceed(k, now)).lost ==>
              Before(Do(s, Proceed(k, now)).order, a, Do(s, Proceed(k, now)).lost[a])
    ensures k !in Do(s, Proceed(k, now)).lost
  {
    var s' := Do(s, Proceed(k, now));
    OnlyInFlight(s, k);
    forall a | a in s'.lost ensures Before(s'.order, a, s'.lost[a]) {
      if s.sh.pending == Some(a) {
        OnlyWaiting(s, a);
        var i :| 0 <= i < |s.order| && s.order[i] == a;
        assert s'.order[i] == a && s'.order[|s.order|] == k;
      } else {
        BeforeGrows(s.order, k, a, s.lost[a]);
      }
    }
  }

  /** A submission that takes effect goes to the end of the order. */
  lemma OrderedOnEffect(s: State, k: nat, now: nat)
    requires Ordered(s) && Accounted(s) && k < |s.subs| && (s.subs[k].Send? || s.subs[k].Pend?)
    ensures Ordered(Do(s, Proceed(k, now)))
  {
    var s' := Do(s, Proceed(k, now));
    MembersKept(s, Proceed(k, now));
    OnlyInFlight(s, k);
    assert k !in s.order;
    if s.subs[k].Pend? {
      LostKept(s, k, now);
    } else {
      forall a | a in s'.lost ensures Before(s'.order, a, s'.lost[a]) {
        BeforeGrows(s.order, k, a, s.lost[a]);
      }
    }
  }

  lemma OrderedKept(s: State, step: Step)
    requires Ordered(s) && Accounted(s) && Enabled(s, step)
    ensures Ordered(Do(s, step))
  {
    if step.Proceed? && (s.subs[step.k].Send? || s.subs[step.k].Pend?) {
      OrderedOnEffect(s, step.k, step.now);
    } else {
      MembersKept(s, step);
      assert Do(s, step).order == s.order && Do(s, step).lost == s.lost;
    }
  }

  lemma OvertakenKept(s: State, step: Step)
    requires Overtaken(s) && Ordered(s) && Accounted(s) && Enabled(s, step)
    ensures Overtaken(Do(s, step))
  {
    var s' := Do(s, step);
    if s'.order != s.order {
      if s.subs[step.k].Send? {
        assert |s.sh.chan| in Positions(s', step.k);
      }
    } else if s'.sh.pending.Some? && s.order != [] {
      var k := s.order[|s.order| - 1];
      if i :| i in Positions(s, k) {
        assert i in Positions(s', k);
      }
    }
  }

  ghost predicate Inv(s: State) {
    && FlagInv(s)
    && Accounted(s)
    && Ordered(s)
    && Overtaken(s)
  }

  lemma InvInit(s: State)
    requires Init(s)
    ensures Inv(s)
  {
    forall k: nat ensures Places(s, k) == 0 {
      assert Carriers(s, k) == {} && Positions(s, k) == {};
    }
    assert Arming(s) == {} && Asleep(s) == {};
  }

  lemma InvStep(s: State, step: Step)
    requires Inv(s) && Enabled(s, step)
    ensures Inv(Do(s, step))
  {
    OwnerKept(s, step);
    RescueKept(s, step);
    AccountedKept(s, step);
    OrderedKept(s, step);
    OvertakenKept(s, step);
  }

  lemma ReachableInv(s: State)
    requires Reachable(s)
    ensures Inv(s)
  {
    forall s0 | Init(s0) ensures Inv(s0) {
      InvInit(s0);
    }
    forall s0, s1 | Inv(s0) && Next(s0, s1) ensures Inv(s1) {
      var step :| Enabled(s0, step) && s1 == Do(s0, step);
      InvStep(s0, step);
    }
    Runs.Always(Init, Next, Inv, s);
  }

  // ---- Main results ----

  /** In every reachable state a waiting snapshot has a task that is still going to take it, and exactly
      one task has won the flag and not reset it when the flag is up, none when it is down. */
  lemma NoLostFlush(s: State)
    requires Reachable(s)
    ensures s.sh.pending.Some? ==> Rescue(s)
    ensures |Arming(s)| + |Asleep(s)| == Bit(s.sh.scheduled)
  {
    ReachableInv(s);
  }

  /** Over any run each submission is in exactly one place, and at most once there: in flight, in the mailbox,
      taken by a flusher, on the channel, or replaced by a write that took effect later. */
  lemma EverySubmissionAccounted(s: State, k: nat)
    requires Reachable(s) && k < |s.subs|
    ensures Places(s, k) == 1
    ensures k in s.lost ==> Before(s.order, k, s.lost[k])
  {
    ReachableInv(s);
  }

  /** No task is left. */
  ghost predicate Quiescent(s: State) {
    && (forall k :: 0 <= k < |s.subs| ==> s.subs[k].Returned?)
    && (forall f :: 0 <= f < |s.flushers| ==> s.flushers[f].Done?)
  }

  lemma QuietlyEmpty(s: State)
    requires Inv(s) && Quiescent(s)
    ensures s.sh.pending == None && !s.sh.scheduled
    ensures forall k: nat :: k < |s.subs| ==> |Positions(s, k)| + Bit(k in s.lost) == 1
  {
    assert Arming(s) == {} && Asleep(s) == {};
    forall k: nat | k < |s.subs| ensures |Positions(s, k)| + Bit(k in s.lost) == 1 {
      assert Places(s, k) == 1;
      assert Carriers(s, k) == {};
    }
  }

  /** Once all tasks have finished, the mailbox and the flag are clear, every submission was sent exactly once or
      replaced by a later one, and the submission that took effect last was sent. */
  lemma Delivery(s: State)
    requires Reachable(s) && Quiescent(s)
    ensures s.sh.pending == None && !s.sh.scheduled
    ensures forall k: nat :: k < |s.subs| ==>
      k in s.order &&
      if k in s.lost then Before(s.order, k, s.lost[k]) && Positions(s, k) == {} else |Positions(s, k)| == 1
    ensures s.order != [] ==> Positions(s, s.order[|s.order| - 1]) != {}
  {
    ReachableInv(s);
    QuietlyEmpty(s);
    forall k: nat | k < |s.subs| ensures k in s.order && (k in s.lost ==> Positions(s, k) == {}) {
      assert |Positions(s, k)| + Bit(k in s.lost) == 1;
      assert !InFlight(s, k);
    }
    if s.order != [] {
      var k := s.order[|s.order| - 1];
      assert k in s.order;
      assert |Positions(s, k)| == 1;
    }
  }
}
