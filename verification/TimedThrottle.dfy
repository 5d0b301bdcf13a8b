/**
 The throttled broadcast with a clock, at the grain of one whole submission or one whole flush a step.

 Hypotheses of this grain: a submission and a flush each run without interruption, the wall clock is the
 monotone model clock, and a flusher runs at most `slack` ms after its sleep ends.
 */
module TimedThrottle {
  import opened Wrappers
  import opened Throttle
  import D = ThrottleDrain
  import Runs

  /** A whole submission: the fast path, or the mailbox write and the flag. */
  function SubmitNow(sh: Shared, k: nat, now: nat): Shared {
    if SaturatingSub(now, sh.last) >= THROTTLE_MS then FastSend(sh.(last := now), k, now)
    else sh.(pending := Some(k), scheduled := true)
  }

  /** The submission spawns a flusher. */
  predicate Schedules(sh: Shared, now: nat) {
    SaturatingSub(now, sh.last) < THROTTLE_MS && !sh.scheduled
  }

  /** A whole flush. */
  function FlushNow(sh: Shared, now: nat): Shared {
    if sh.pending.Some?
    then sh.(scheduled := false, pending := None, last := now,
             chan := sh.chan + [Entry(sh.pending.value, true, now, false)])
    else sh.(scheduled := false)
  }

  /** `due` is when the sleeping flusher wakes up; `firstPend` is when the mailbox last became occupied. `since` and
      `heir` have an entry for every submission that went to the mailbox: when it did, and the last of the mailbox
      writes that replaced one another from it on, itself if none did. */
  datatype Timed = Timed(
    sh: Shared,
    now: nat,
    due: Option<nat>,
    firstPend: nat,
    subs: nat,
    slack: nat,
    since: map<nat, nat>,
    heir: map<nat, nat>)

  datatype Event = Tick(ms: nat) | Arrive | Fire

  predicate InitTimed(s: Timed) {
    s.sh == EMPTY && s.due == None && s.subs == 0 && s.since == map[] && s.heir == map[]
  }

  predicate Waits(sh: Shared, now: nat) {
    SaturatingSub(now, sh.last) < THROTTLE_MS
  }

  /** The write of submission `k` takes over from what waits in the mailbox. */
  function Inherited(heir: map<nat, nat>, pending: Option<nat>, k: nat): map<nat, nat> {
    (map j | j in heir :: if pending == Some(heir[j]) then k else heir[j])[k := k]
  }

  predicate Can(s: Timed, e: Event) {
    match e
    case Tick(ms) => s.due.Some? ==> s.now + ms <= s.due.value + s.slack
    case Arrive => true
    case Fire => s.due.Some? && s.due.value <= s.now
  }

  function After(s: Timed, e: Event): Timed
    requires Can(s, e)
  {
    match e
    case Tick(ms) => s.(now := s.now + ms)
    case Arrive =>
      s.(sh := SubmitNow(s.sh, s.subs, s.now),
         due := if Schedules(s.sh, s.now) then Some(s.now + Delay(s.now, s.sh.last)) else s.due,
         firstPend := if s.sh.pending.None? then s.now else s.firstPend,
         subs := s.subs + 1,
         since := if Waits(s.sh, s.now) then s.since[s.subs := s.now] else s.since,
         heir := if Waits(s.sh, s.now) then Inherited(s.heir, s.sh.pending, s.subs) else s.heir)
    case Fire => s.(sh := FlushNow(s.sh, s.now), due := None)
  }

  ghost predicate NextTimed(s: Timed, s': Timed) {
    exists e :: Can(s, e) && s' == After(s, e)
  }

  ghost predicate ReachableTimed(s: Timed) {
    Runs.Reachable(InitTimed, NextTimed, s)
  }

  // ---- What every step keeps ----

  /** The time of the last send is `last`, and sends are in time order. */
  predicate Clocked(s: Timed) {
    && s.sh.last <= s.now
    && (forall i :: 0 <= i < |s.sh.chan| ==> s.sh.chan[i].at <= s.sh.last)
    && (forall i, j :: 0 <= i < j < |s.sh.chan| ==> s.sh.chan[i].at <= s.sh.chan[j].at)
    && (s.sh.chan != [] ==> s.sh.chan[|s.sh.chan| - 1].at == s.sh.last)
    && (s.due.Some? <==> s.sh.scheduled) && (s.due.Some? <==> s.sh.pending.Some?)
  }

  predicate OvertookLast(s: Timed) {
    s.sh.chan != [] && s.sh.chan[|s.sh.chan| - 1].overtook
  }

  /** The flusher is due one interval after the last send, unless a fast send has overtaken it since. */
  predicate DueTimes(s: Timed) {
    && (OvertookLast(s) ==> s.due.Some?)
    && (s.due.Some? ==>
          && s.firstPend <= s.now <= s.due.value + s.slack
          && s.firstPend < s.due.value <= s.firstPend + THROTTLE_MS
          && (if OvertookLast(s) then s.due.value <= s.sh.last else s.due.value == s.sh.last + THROTTLE_MS)
          && (forall i :: 0 <= i < |s.sh.chan| && s.sh.chan[i].flushed ==>
                s.due.value >= s.sh.chan[i].at + THROTTLE_MS))
  }

  /** A fast send is an interval after every earlier send, and flushes are an interval apart. */
  predicate Spaced(s: Timed) {
    forall i, j :: 0 <= i < j < |s.sh.chan| && (s.sh.chan[j].flushed ==> s.sh.chan[i].flushed) ==>
      s.sh.chan[j].at >= s.sh.chan[i].at + THROTTLE_MS
  }

  ghost predicate TimedInv(s: Timed) {
    Clocked(s) && DueTimes(s) && Spaced(s) && Gaps(s) && Named(s) && Heirs(s)
  }

  /** If flushers are less than one interval late, two neighbouring sends are closer than one interval
      exactly when the first of them overtook the second. */
  predicate Gaps(s: Timed) {
    s.slack < THROTTLE_MS ==>
      forall i, j :: 0 <= i && j == i + 1 < |s.sh.chan| ==>
        (s.sh.chan[j].at < s.sh.chan[i].at + THROTTLE_MS <==> s.sh.chan[i].overtook)
  }

  /** Ids on the channel and in the mailbox are distinct and were handed out; the newest submission is
      waiting, or was the last to be sent, or was sent last but one by overtaking the last one. */
  predicate Named(s: Timed) {
    var c := s.sh.chan;
    && (forall i :: 0 <= i < |c| ==> c[i].id < s.subs && s.sh.pending != Some(c[i].id))
    && (s.sh.pending.Some? ==> s.sh.pending.value < s.subs)
    && (forall i, j :: 0 <= i < j < |c| ==> c[i].id != c[j].id)
    && (s.subs > 0 ==>
          var k := s.subs - 1;
          || s.sh.pending == Some(k)
          || (c != [] && c[|c| - 1].id == k && c[|c| - 1].overtook == s.sh.pending.Some?)
          || (|c| >= 2 && c[|c| - 2].id == k && c[|c| - 2].overtook && s.sh.pending == None))
  }

  lemma ClockedKept(s: Timed, e: Event)
    requires Clocked(s) && Can(s, e)
    ensures Clocked(After(s, e))
  {
  }

  lemma DueTimesKept(s: Timed, e: Event)
    requires Clocked(s) && DueTimes(s) && Can(s, e)
    ensures DueTimes(After(s, e))
  {
  }

  lemma SpacedKept(s: Timed, e: Event)
    requires Clocked(s) && DueTimes(s) && Spaced(s) && Can(s, e)
    ensures Spaced(After(s, e))
  {
  }

  lemma GapsKept(s: Timed, e: Event)
    requires Clocked(s) && DueTimes(s) && Gaps(s) && Can(s, e)
    ensures Gaps(After(s, e))
  {
  }

  lemma NamedOnArrival(s: Timed)
    requires Clocked(s) && Named(s) && DueTimes(s)
    ensures Named(After(s, Arrive))
  {
    var c, c' := s.sh.chan, After(s, Arrive).sh.chan;
    assert forall i :: 0 <= i < |c| ==> c'[i] == c[i];
  }

  lemma NamedOnFire(s: Timed)
    requires Clocked(s) && Named(s) && DueTimes(s) && Can(s, Fire)
    ensures Named(After(s, Fire))
  {
    var c, c' := s.sh.chan, After(s, Fire).sh.chan;
    assert forall i :: 0 <= i < |c| ==> c'[i] == c[i];
  }

  lemma NamedKept(s: Timed, e: Event)
    requires Clocked(s) && Named(s) && DueTimes(s) && Can(s, e)
    ensures Named(After(s, e))
  {
    match e
    case Tick(_) =>
    case Arrive => NamedOnArrival(s);
    case Fire => NamedOnFire(s);
  }

  /** The flush that sent `id` came within one interval and the flusher's lateness of the time `since`. */
  ghost predicate SentInTime(s: Timed, id: nat, since: nat) {
    exists i :: 0 <= i < |s.sh.chan| && s.sh.chan[i].id == id && s.sh.chan[i].flushed &&
                since <= s.sh.chan[i].at <= since + THROTTLE_MS + s.slack
  }

  /** `k` stands behind what waits in the mailbox now, or behind a snapshot sent in time. */
  ghost predicate Covered(s: Timed, k: nat)
    requires k in s.heir && k in s.since
  {
    if s.sh.pending == Some(s.heir[k]) then s.firstPend <= s.since[k] <= s.now
    else SentInTime(s, s.heir[k], s.since[k])
  }

  ghost predicate SentFast(s: Timed, k: nat) {
    exists i :: 0 <= i < |s.sh.chan| && s.sh.chan[i].id == k && !s.sh.chan[i].flushed
  }

  /** Every submission was sent at once or went to the mailbox, and whatever went there is covered. */
  ghost predicate Heirs(s: Timed) {
    && s.heir.Keys == s.since.Keys
    && (forall k :: k in s.heir ==> k <= s.heir[k] < s.subs)
    && (forall k :: k in s.heir ==> Covered(s, k))
    && (forall k: nat :: k < s.subs ==> k in s.since || SentFast(s, k))
  }

  lemma SentStays(s: Timed, e: Event, id: nat, since: nat)
    requires Can(s, e) && SentInTime(s, id, since)
    ensures SentInTime(After(s, e), id, since)
  {
    var i :| 0 <= i < |s.sh.chan| && s.sh.chan[i].id == id && s.sh.chan[i].flushed &&
             since <= s.sh.chan[i].at <= since + THROTTLE_MS + s.slack;
    assert After(s, e).sh.chan[i] == s.sh.chan[i];
  }

  lemma FiredInTime(s: Timed, since: nat)
    requires Clocked(s) && DueTimes(s) && Can(s, Fire) && s.sh.pending.Some? && s.firstPend <= since <= s.now
    ensures SentInTime(After(s, Fire), s.sh.pending.value, since)
  {
    var i := |s.sh.chan|;
    assert After(s, Fire).sh.chan[i] == Entry(s.sh.pending.value, true, s.now, false);
  }

  lemma CoveredStays(s: Timed, e: Event, k: nat)
    requires Clocked(s) && DueTimes(s) && Heirs(s) && Can(s, e) && k in s.heir
    ensures k in After(s, e).heir && k in After(s, e).since && Covered(After(s, e), k)
  {
    assert Covered(s, k);
    if s.sh.pending != Some(s.heir[k]) {
      SentStays(s, e, s.heir[k], s.since[k]);
    } else if e.Fire? {
      FiredInTime(s, s.since[k]);
    }
  }

  lemma FastStays(s: Timed, e: Event, k: nat)
    requires Can(s, e) && SentFast(s, k)
    ensures SentFast(After(s, e), k)
  {
    var i :| 0 <= i < |s.sh.chan| && s.sh.chan[i].id == k && !s.sh.chan[i].flushed;
    assert After(s, e).sh.chan[i] == s.sh.chan[i];
  }

  /** The newcomer is sent at once, or waits and stands for itself. */
  lemma NewcomerCovered(s: Timed)
    requires Clocked(s) && DueTimes(s) && s.heir.Keys == s.since.Keys && s.subs !in s.heir
    ensures After(s, Arrive).heir.Keys == After(s, Arrive).since.Keys
    ensures if s.subs in After(s, Arrive).heir then Covered(After(s, Arrive), s.subs)
            else SentFast(After(s, Arrive), s.subs)
  {
    if !Waits(s.sh, s.now) {
      assert After(s, Arrive).sh.chan[|s.sh.chan|].id == s.subs;
    }
  }

  lemma HeirsKept(s: Timed, e: Event)
    requires Clocked(s) && DueTimes(s) && Heirs(s) && Can(s, e)
    ensures Heirs(After(s, e))
  {
    var s' := After(s, e);
    if e.Arrive? {
      NewcomerCovered(s);
    }
    forall k | k in s'.heir ensures k in s'.since && Covered(s', k) {
      if k in s.heir {
        CoveredStays(s, e, k);
      }
    }
    forall k: nat | k < s'.subs ensures k in s'.since || SentFast(s', k) {
      if k < s.subs && SentFast(s, k) {
        FastStays(s, e, k);
      }
    }
  }

  lemma TimedInvStep(s: Timed, e: Event)
    requires TimedInv(s) && Can(s, e)
    ensures TimedInv(After(s, e))
  {
    ClockedKept(s, e);
    DueTimesKept(s, e);
    SpacedKept(s, e);
    GapsKept(s, e);
    NamedKept(s, e);
    HeirsKept(s, e);
  }

  lemma TimedReachableInv(s: Timed)
    requires ReachableTimed(s)
    ensures TimedInv(s)
  {
    forall s0, s1 | TimedInv(s0) && NextTimed(s0, s1) ensures TimedInv(s1) {
      var e :| Can(s0, e) && s1 == After(s0, e);
      TimedInvStep(s0, e);
    }
    Runs.Always(InitTimed, NextTimed, TimedInv, s);
  }

  // ---- Main results ----

  /** A fast send comes at least 50 ms after every earlier send, two flushes are at least 50 ms apart, and so
      any window of 50 ms (open at its end) holds at most two sends. */
  lemma SendSpacing(s: Timed, i: nat, j: nat)
    requires ReachableTimed(s) && i < j < |s.sh.chan|
    ensures s.sh.chan[i].at <= s.sh.chan[j].at
    ensures !s.sh.chan[j].flushed || s.sh.chan[i].flushed ==> s.sh.chan[j].at >= s.sh.chan[i].at + THROTTLE_MS
    ensures i + 2 <= j ==> s.sh.chan[j].at >= s.sh.chan[i].at + THROTTLE_MS
  {
    TimedReachableInv(s);
    if i + 2 <= j {
      var c := s.sh.chan;
      assert c[i].at <= c[i + 1].at <= c[j].at;
    }
  }

  /** The documented "at most one send per 50 ms" does not hold; with flushers less than 50 ms late it fails exactly
      where a fast send was made while an older snapshot was waiting in the mailbox. */
  lemma CloserThanIntervalIff(s: Timed, i: nat)
    requires ReachableTimed(s) && s.slack < THROTTLE_MS && i + 1 < |s.sh.chan|
    ensures s.sh.chan[i + 1].at < s.sh.chan[i].at + THROTTLE_MS <==> s.sh.chan[i].overtook
  {
    TimedReachableInv(s);
    var j := i + 1;
    assert s.sh.chan[j].at < s.sh.chan[i].at + THROTTLE_MS <==> s.sh.chan[i].overtook;
  }

  /** A waiting snapshot is never older than 50 ms plus the flusher's lateness; when the flusher runs, it sends what
      is waiting then: the snapshot that occupied the mailbox first, or a later one that replaced it. */
  lemma BoundedStaleness(s: Timed)
    requires ReachableTimed(s) && s.sh.pending.Some?
    ensures s.due.Some? && s.now <= s.firstPend + THROTTLE_MS + s.slack
    ensures s.due.value <= s.now ==>
      Can(s, Fire) && After(s, Fire).sh.pending == None &&
      After(s, Fire).sh.chan == s.sh.chan + [Entry(s.sh.pending.value, true, s.now, false)]
  {
    TimedReachableInv(s);
  }

  /** Bounded delivery: every submission was sent at once; or it went to the mailbox, and it or the last of the writes
      that replaced it there is on the channel within 50 ms plus the flusher's lateness of its own mailbox write, or
      still waits and that time is not over. */
  lemma EveryoneDelivered(s: Timed, k: nat)
    requires ReachableTimed(s) && k < s.subs
    ensures
      || SentFast(s, k)
      || (k in s.since && k in s.heir && k <= s.heir[k] &&
          (SentInTime(s, s.heir[k], s.since[k]) ||
           (s.sh.pending == Some(s.heir[k]) && s.now <= s.since[k] + THROTTLE_MS + s.slack)))
  {
    TimedReachableInv(s);
    assert k in s.since ==> k in s.heir && Covered(s, k);
  }

  /** At rest, the newest submission is the last snapshot on the channel exactly when it was not
      sent past a waiting one: it waited itself, or took the fast path with the mailbox empty. */
  lemma NewestIsLastIff(s: Timed)
    requires ReachableTimed(s) && s.due == None && s.subs > 0
    ensures s.sh.chan != []
    ensures s.sh.chan[|s.sh.chan| - 1].id == s.subs - 1 <==>
      !exists i :: 0 <= i < |s.sh.chan| && s.sh.chan[i].id == s.subs - 1 && s.sh.chan[i].overtook
  {
    TimedReachableInv(s);
  }

  /** Three submissions at 1000, 1010 and 1050 ms, the last one just before the flusher of the second runs:
      two sends at the same instant, and the newest snapshot is not the last one sent. */
  lemma OvertakingWitness() returns (s: Timed)
    ensures ReachableTimed(s) && s.slack == 0 && s.due == None && s.subs == 3
    ensures s.sh.chan == [Entry(0, false, 1000, false), Entry(2, false, 1050, true), Entry(1, true, 1050, false)]
  {
    s := Timed(EMPTY, 1000, None, 0, 0, 0, map[], map[]);
    Runs.Start(InitTimed, NextTimed, s);
    s := TakeStep(s, Arrive);
    s := TakeStep(s, Tick(10));
    s := TakeStep(s, Arrive);
    s := TakeStep(s, Tick(40));
    s := TakeStep(s, Arrive);
    s := TakeStep(s, Fire);
  }

  lemma TakeStep(s: Timed, e: Event) returns (s': Timed)
    requires ReachableTimed(s) && Can(s, e)
    ensures ReachableTimed(s') && s' == After(s, e)
  {
    s' := After(s, e);
    Runs.Extend(InitTimed, NextTimed, s, s');
  }

  // ---- The two grains agree ----

  /** Submission `k` runs alone at clock reading `now` until it returns. */
  function AloneSub(s: State, k: nat, now: nat): State
    requires k < |s.subs|
    decreases D.SubWork(s.subs[k])
  {
    if s.subs[k].Returned? then s else AloneSub(ProceedSub(s, k, now), k, now)
  }

  /** Flusher `f` runs alone at clock reading `now` until it is done. */
  function AloneFlush(s: State, f: nat, now: nat): State
    requires f < |s.flushers|
    decreases D.FlushWork(s.flushers[f])
  {
    if s.flushers[f].Done? then s else AloneFlush(ProceedFlush(s, f, now), f, now)
  }

  /** In the fine-grained protocol, a submission that is not interrupted is `SubmitNow`, and leaves behind a
      flusher with the computed delay exactly when `Schedules` says so. */
  lemma SubmitIsUninterrupted(s: State, now: nat)
    ensures
      var k := |s.subs|;
      var s' := AloneSub(Do(s, Submit), k, now);
      && s'.sh == SubmitNow(s.sh, k, now)
      && s'.subs == s.subs + [Returned] && s'.order == s.order + [k]
      && s'.flushers == s.flushers + if Schedules(s.sh, now) then [Sleeping(Delay(now, s.sh.last))] else []
  {
    var k := |s.subs|;
    var s0 := Do(s, Submit);
    var s1 := ProceedSub(s0, k, now);
    assert AloneSub(s0, k, now) == AloneSub(s1, k, now);
    var s2 := ProceedSub(s1, k, now);
    assert AloneSub(s1, k, now) == AloneSub(s2, k, now);
    var s3 := ProceedSub(s2, k, now);
    assert AloneSub(s2, k, now) == AloneSub(s3, k, now);
  }

  /** A flush that is not interrupted is `FlushNow`. */
  lemma FlushIsUninterrupted(s: State, f: nat, now: nat)
    requires f < |s.flushers| && s.flushers[f].Sleeping?
    ensures AloneFlush(s, f, now).sh == FlushNow(s.sh, now)
    ensures AloneFlush(s, f, now).flushers == s.flushers[f := Done] && AloneFlush(s, f, now).subs == s.subs
  {
    var s1 := ProceedFlush(s, f, now);
    assert AloneFlush(s, f, now) == AloneFlush(s1, f, now);
    var s2 := ProceedFlush(s1, f, now);
    assert AloneFlush(s1, f, now) == AloneFlush(s2, f, now);
    if s.sh.pending.Some? {
      var s3 := ProceedFlush(s2, f, now);
      assert AloneFlush(s2, f, now) == AloneFlush(s3, f, now);
      var s4 := ProceedFlush(s3, f, now);
      assert AloneFlush(s3, f, now) == AloneFlush(s4, f, now) == s4;
      assert s4.flushers == s.flushers[f := Done];
    } else {
      assert AloneFlush(s2, f, now) == s2;
      assert s2.flushers == s.flushers[f := Done];
    }
  }

  lemma {:induction false} ReachSub(s: State, k: nat, now: nat)
    requires Reachable(s) && k < |s.subs|
    ensures Reachable(AloneSub(s, k, now))
    decreases D.SubWork(s.subs[k])
  {
    if !s.subs[k].Returned? {
      Runs.Extend(Init, Next, s, Do(s, Proceed(k, now)));
      ReachSub(Do(s, Proceed(k, now)), k, now);
    }
  }

  lemma ReachSubmitted(s: State, now: nat) returns (s': State)
    requires Reachable(s)
    ensures Reachable(s') && s' == AloneSub(Do(s, Submit), |s.subs|, now)
  {
    Runs.Extend(Init, Next, s, Do(s, Submit));
    ReachSub(Do(s, Submit), |s.subs|, now);
    s' := AloneSub(Do(s, Submit), |s.subs|, now);
  }

  /** The fast path leaves the mailbox alone: after a waiting submission and a fast one, the latest snapshot has been
      sent and some schedule sends the older one behind it. */
  lemma LatestNotSureToBeLast() returns (s: State)
    ensures Reachable(s) && (forall j :: !InFlight(s, j)) && s.order == [0, 1]
    ensures D.LastSent(s, 1) && s.sh.pending == Some(0)
    ensures !D.SureToBeLast(s, 1)
  {
    var s0 := State(EMPTY, [], [], map[], []);
    Runs.Start(Init, Next, s0);
    SubmitIsUninterrupted(s0, 0);
    s := ReachSubmitted(s0, 0);
    SubmitIsUninterrupted(s, 50);
    s := ReachSubmitted(s, 50);
    assert D.Owed(s, 0);
    D.LatestIsLastIff(s, 1);
  }
}
