/**
 The fine-grained throttle with a monotone clock. Reading the clock is a step of its own: a task may be held up between
 its reading and the access that uses it. A flusher does not wake before its sleep is over. What the throttle spaces at
 this grain are the stamps on the time of the last send: how close two of them can come, when they can go back in time,
 and from which states the next one can do either.
 */
module ThrottleClock {
  import opened Throttle
  import opened Wrappers
  import Runs

  datatype Task = Sub(k: nat) | Flusher(f: nat)

  /** A clock reading not used yet, and how many stamps there were when it was taken. */
  datatype Reading = Reading(at: nat, stamps: nat)

  /** A time written to `last`: by a submission that won its compare-exchange, or by a flusher whose reading was taken
      when there were `read` stamps. */
  datatype Stamp = Fast(at: nat) | Flushed(at: nat, f: nat, read: nat)

  /** `due[f]` is when the sleep of flusher `f` is over; `armed[f]` is how many stamps there were when it was armed,
      and `stamps` are all stamps so far. */
  datatype Clocked = Clocked(
    st: State,
    now: nat,
    due: seq<nat>,
    armed: seq<nat>,
    stamps: seq<Stamp>,
    held: map<Task, Reading>)

  datatype ClockStep = Read(task: Task) | Access(step: Step)

  predicate InitClocked(c: Clocked) {
    Init(c.st) && c.due == [] && c.armed == [] && c.stamps == [] && c.held == map[]
  }

  /** The task's next access uses a clock reading. */
  predicate NeedsReading(st: State, task: Task) {
    match task
    case Sub(k) => k < |st.subs| && (st.subs[k].Start? || st.subs[k].Arm?)
    case Flusher(f) => f < |st.flushers| && st.flushers[f].Stamping?
  }

  function TaskOf(step: Step): Task
    requires !step.Submit?
  {
    if step.Proceed? then Sub(step.k) else Flusher(step.f)
  }

  predicate CanAccess(c: Clocked, step: Step, now: nat) {
    && Enabled(c.st, step)
    && (step.Flush? && c.st.flushers[step.f].Sleeping? ==> step.f < |c.due| && c.due[step.f] <= now)
    && (!step.Submit? && NeedsReading(c.st, TaskOf(step)) ==>
          TaskOf(step) in c.held && step.now == c.held[TaskOf(step)].at)
  }

  predicate CanAt(c: Clocked, e: ClockStep, now: nat) {
    c.now <= now &&
    match e
    case Read(task) => NeedsReading(c.st, task) && task !in c.held
    case Access(step) => CanAccess(c, step, now)
  }

  /** The step writes the time of the last send. */
  predicate Stamps(st: State, e: ClockStep) {
    match e
    case Read(_) => false
    case Access(step) =>
      match step
      case Submit => false
      case Proceed(k, _) => k < |st.subs| && st.subs[k].Cas? && st.subs[k].seen == st.sh.last
      case Flush(f, _) => f < |st.flushers| && st.flushers[f].Stamping?
  }

  /** The step spawns a flusher. */
  predicate Arms(st: State, e: ClockStep) {
    e.Access? && e.step.Proceed? && e.step.k < |st.subs| && st.subs[e.step.k].Arm?
  }

  /** The stamp a stamping step leaves. */
  function NewStamp(c: Clocked, e: ClockStep, now: nat): Stamp
    requires CanAt(c, e, now) && Stamps(c.st, e)
  {
    match e.step
    case Proceed(k, _) => Fast(c.st.subs[k].now)
    case Flush(f, t) => Flushed(t, f, c.held[Flusher(f)].stamps)
  }

  function DoAt(c: Clocked, e: ClockStep, now: nat): Clocked
    requires CanAt(c, e, now)
  {
    match e
    case Read(task) => c.(now := now, held := c.held[task := Reading(now, |c.stamps|)])
    case Access(step) =>
      Clocked(
        Do(c.st, step),
        now,
        if Arms(c.st, e) then c.due + [now + Delay(step.now, c.st.sh.last)] else c.due,
        if Arms(c.st, e) then c.armed + [|c.stamps|] else c.armed,
        if Stamps(c.st, e) then c.stamps + [NewStamp(c, e, now)] else c.stamps,
        if step.Submit? then c.held else c.held - {TaskOf(step)})
  }

  ghost predicate NextClocked(c: Clocked, c': Clocked) {
    exists e, now :: CanAt(c, e, now) && c' == DoAt(c, e, now)
  }

  ghost predicate ReachableClocked(c: Clocked) {
    Runs.Reachable(InitClocked, NextClocked, c)
  }

  /** The clock only restricts the fine-grained protocol: all that holds of its reachable states holds here. */
  lemma ClockedIsFine(c: Clocked)
    requires ReachableClocked(c)
    ensures Reachable(c.st)
  {
    var fine := (d: Clocked) => Reachable(d.st);
    forall d | InitClocked(d) ensures fine(d) {
      Runs.Start(Init, Next, d.st);
    }
    forall d, d' | fine(d) && NextClocked(d, d') ensures fine(d') {
      var e, now :| CanAt(d, e, now) && d' == DoAt(d, e, now);
      if e.Access? {
        Runs.Extend(Init, Next, d.st, d'.st);
      }
    }
    Runs.Always(InitClocked, NextClocked, fine, c);
  }

  // ---- What every step keeps ----

  /** The time of the last send after the first `n` stamps. */
  function Base(stamps: seq<Stamp>, n: nat): nat
    requires n <= |stamps|
  {
    if n == 0 then 0 else stamps[n - 1].at
  }

  /** The last stamp is in `last`, and not in the future. */
  predicate Timely(c: Clocked) {
    c.st.sh.last == Base(c.stamps, |c.stamps|) <= c.now
  }

  /** A reading is not in the future, not before the last stamp at its time, and a flusher's not before it was due. */
  predicate ReadingFits(c: Clocked, task: Task)
    requires task in c.held
  {
    var r := c.held[task];
    && NeedsReading(c.st, task)
    && r.at <= c.now && r.stamps <= |c.stamps| && Base(c.stamps, r.stamps) <= r.at
    && (task.Flusher? ==>
          task.f < |c.due| && task.f < |c.armed| && c.due[task.f] <= r.at && c.armed[task.f] <= r.stamps)
  }

  ghost predicate ReadingsFit(c: Clocked) {
    forall task :: task in c.held ==> ReadingFits(c, task)
  }

  /** A submission at its compare-exchange read the clock at least one interval after the stamp it expects. */
  predicate CasLate(c: Clocked) {
    forall k :: 0 <= k < |c.st.subs| && c.st.subs[k].Cas? ==>
      c.st.subs[k].seen + THROTTLE_MS <= c.st.subs[k].now <= c.now
  }

  /** A flusher is due one interval after the last stamp before it was armed, and awake only when it is due. */
  predicate FlushersLate(c: Clocked) {
    && |c.due| == |c.armed| == |c.st.flushers|
    && (forall f :: 0 <= f < |c.armed| ==>
          c.armed[f] <= |c.stamps| && c.due[f] >= Base(c.stamps, c.armed[f]) + THROTTLE_MS)
    && (forall f :: 0 <= f < |c.due| && !c.st.flushers[f].Sleeping? ==> c.due[f] <= c.now)
  }

  /** A fast stamp is one interval after the stamp it replaces, a flusher's one interval after the last stamp before it
      was armed, and not before the last stamp when it read the clock. */
  predicate SpacedAt(c: Clocked, i: nat)
    requires i < |c.stamps|
  {
    match c.stamps[i]
    case Fast(at) => at >= Base(c.stamps, i) + THROTTLE_MS
    case Flushed(at, f, read) =>
      && f < |c.armed| && c.armed[f] <= read <= i
      && at >= Base(c.stamps, c.armed[f]) + THROTTLE_MS && at >= Base(c.stamps, read)
  }

  predicate StampsSpaced(c: Clocked) {
    forall i :: 0 <= i < |c.stamps| ==> SpacedAt(c, i)
  }

  ghost predicate ClockInv(c: Clocked) {
    Timely(c) && ReadingsFit(c) && CasLate(c) && FlushersLate(c) && StampsSpaced(c)
  }

  /** What a step that arms a flusher changes. */
  lemma Armed(c: Clocked, e: ClockStep, now: nat)
    requires CanAt(c, e, now) && Arms(c.st, e)
    ensures
      var c', d := DoAt(c, e, now), Delay(e.step.now, c.st.sh.last);
      && c'.due == c.due + [now + d] && c'.armed == c.armed + [|c.stamps|] && c'.stamps == c.stamps
      && c'.st.flushers == c.st.flushers + [Sleeping(d)] && c'.st.sh == c.st.sh
  {
  }

  /** What any other step changes. */
  lemma NotArmed(c: Clocked, e: ClockStep, now: nat)
    requires CanAt(c, e, now) && !Arms(c.st, e)
    ensures
      var c' := DoAt(c, e, now);
      && c'.due == c.due && c'.armed == c.armed && |c'.st.flushers| == |c.st.flushers|
      && (forall f :: 0 <= f < |c.st.flushers| && !(e.Access? && e.step.Flush? && e.step.f == f) ==>
            c'.st.flushers[f] == c.st.flushers[f])
  {
  }

  lemma Stamped(c: Clocked, e: ClockStep, now: nat)
    requires CanAt(c, e, now) && Stamps(c.st, e)
    ensures !Arms(c.st, e)
    ensures DoAt(c, e, now).stamps == c.stamps + [NewStamp(c, e, now)]
    ensures DoAt(c, e, now).st.sh.last == NewStamp(c, e, now).at
  {
  }

  lemma NotStamped(c: Clocked, e: ClockStep, now: nat)
    requires CanAt(c, e, now) && !Stamps(c.st, e)
    ensures DoAt(c, e, now).stamps == c.stamps && DoAt(c, e, now).st.sh.last == c.st.sh.last
  {
  }

  lemma HistoryGrows(c: Clocked, e: ClockStep, now: nat)
    requires CanAt(c, e, now)
    ensures c.stamps <= DoAt(c, e, now).stamps && c.armed <= DoAt(c, e, now).armed && c.due <= DoAt(c, e, now).due
    ensures forall n :: 0 <= n <= |c.stamps| ==> Base(DoAt(c, e, now).stamps, n) == Base(c.stamps, n)
  {
    if Stamps(c.st, e) {
      Stamped(c, e, now);
    } else {
      NotStamped(c, e, now);
    }
    if Arms(c.st, e) {
      Armed(c, e, now);
    } else {
      NotArmed(c, e, now);
    }
  }

  lemma TimelyKept(c: Clocked, e: ClockStep, now: nat)
    requires Timely(c) && ReadingsFit(c) && CasLate(c) && CanAt(c, e, now)
    ensures Timely(DoAt(c, e, now))
  {
    if Stamps(c.st, e) {
      Stamped(c, e, now);
      assert e.step.Flush? ==> ReadingFits(c, Flusher(e.step.f));
    } else {
      NotStamped(c, e, now);
    }
  }

  /** An access uses up its task's reading, and leaves every other task where it is. */
  lemma OtherTasks(c: Clocked, e: ClockStep, now: nat, task: Task)
    requires CanAt(c, e, now) && task in DoAt(c, e, now).held && e != Read(task)
    ensures task in c.held && DoAt(c, e, now).held[task] == c.held[task]
    ensures NeedsReading(c.st, task) ==> NeedsReading(DoAt(c, e, now).st, task)
  {
  }

  lemma ReadingKept(c: Clocked, e: ClockStep, now: nat, task: Task)
    requires Timely(c) && ReadingsFit(c) && FlushersLate(c) && CanAt(c, e, now) && task in DoAt(c, e, now).held
    ensures ReadingFits(DoAt(c, e, now), task)
  {
    if e == Read(task) {
    } else {
      OtherTasks(c, e, now, task);
      HistoryGrows(c, e, now);
      assert ReadingFits(c, task);
    }
  }

  lemma CasLateKept(c: Clocked, e: ClockStep, now: nat)
    requires ReadingsFit(c) && CasLate(c) && CanAt(c, e, now)
    ensures CasLate(DoAt(c, e, now))
  {
    if e.Access? && e.step.Proceed? {
      assert Sub(e.step.k) in c.held ==> ReadingFits(c, Sub(e.step.k));
    }
  }

  lemma FlushersLateKept(c: Clocked, e: ClockStep, now: nat)
    requires Timely(c) && ReadingsFit(c) && FlushersLate(c) && CanAt(c, e, now)
    ensures FlushersLate(DoAt(c, e, now))
  {
    HistoryGrows(c, e, now);
    if Arms(c.st, e) {
      Armed(c, e, now);
      assert ReadingFits(c, Sub(e.step.k));
    } else {
      NotArmed(c, e, now);
    }
  }

  lemma OldStampSpaced(c: Clocked, e: ClockStep, now: nat, i: nat)
    requires CanAt(c, e, now) && i < |c.stamps| && SpacedAt(c, i)
    ensures i < |DoAt(c, e, now).stamps| && SpacedAt(DoAt(c, e, now), i)
  {
    HistoryGrows(c, e, now);
  }

  lemma NewStampSpaced(c: Clocked, e: ClockStep, now: nat)
    requires Timely(c) && ReadingsFit(c) && CasLate(c) && FlushersLate(c) && CanAt(c, e, now) && Stamps(c.st, e)
    ensures |DoAt(c, e, now).stamps| == |c.stamps| + 1 && SpacedAt(DoAt(c, e, now), |c.stamps|)
  {
    HistoryGrows(c, e, now);
    Stamped(c, e, now);
    NotArmed(c, e, now);
    assert e.step.Flush? ==> ReadingFits(c, Flusher(e.step.f));
  }

  lemma StampsSpacedKept(c: Clocked, e: ClockStep, now: nat)
    requires ClockInv(c) && CanAt(c, e, now)
    ensures StampsSpaced(DoAt(c, e, now))
  {
    forall i | 0 <= i < |c.stamps| ensures i < |DoAt(c, e, now).stamps| && SpacedAt(DoAt(c, e, now), i) {
      OldStampSpaced(c, e, now, i);
    }
    if Stamps(c.st, e) {
      NewStampSpaced(c, e, now);
    } else {
      NotStamped(c, e, now);
    }
  }

  lemma ClockInvStep(c: Clocked, e: ClockStep, now: nat)
    requires ClockInv(c) && CanAt(c, e, now)
    ensures ClockInv(DoAt(c, e, now))
  {
    TimelyKept(c, e, now);
    forall task | task in DoAt(c, e, now).held ensures ReadingFits(DoAt(c, e, now), task) {
      ReadingKept(c, e, now, task);
    }
    CasLateKept(c, e, now);
    FlushersLateKept(c, e, now);
    StampsSpacedKept(c, e, now);
  }

  lemma ReachableClockInv(c: Clocked)
    requires ReachableClocked(c)
    ensures ClockInv(c)
  {
    forall d, d' | ClockInv(d) && NextClocked(d, d') ensures ClockInv(d') {
      var e, now :| CanAt(d, e, now) && d' == DoAt(d, e, now);
      ClockInvStep(d, e, now);
    }
    Runs.Always(InitClocked, NextClocked, ClockInv, c);
  }

  // ---- Spacing over whole runs ----

  /** In every reachable state: a fast stamp comes at least 50 ms after the stamp it replaces; a flusher's at least 50
      ms after the last stamp before it was armed, and not before the last stamp when it read the clock. */
  lemma StampSpacing(c: Clocked, i: nat)
    requires ReachableClocked(c) && i < |c.stamps|
    ensures SpacedAt(c, i)
  {
    ReachableClockInv(c);
  }

  /** Who wrote a stamp: a submission; a flusher armed since the stamp before it; one armed earlier that read the clock
      since; or one that had read the clock already. */
  datatype Kind = ByWinner | ArmedSince | ReadSince | ReadBefore

  function KindOf(c: Clocked, i: nat): Kind
    requires i < |c.stamps|
  {
    match c.stamps[i]
    case Fast(_) => ByWinner
    case Flushed(_, f, read) =>
      if f < |c.armed| && c.armed[f] == i then ArmedSince else if read == i then ReadSince else ReadBefore
  }

  predicate TooClose(c: Clocked, i: nat) {
    0 < i < |c.stamps| && c.stamps[i].at < c.stamps[i - 1].at + THROTTLE_MS
  }

  predicate GoesBack(c: Clocked, i: nat) {
    0 < i < |c.stamps| && c.stamps[i].at < c.stamps[i - 1].at
  }

  /** In some run a stamp of this kind comes less than one interval after the stamp before it. */
  ghost predicate CanBeClose(kind: Kind) {
    exists c, i: nat :: ReachableClocked(c) && TooClose(c, i) && KindOf(c, i) == kind
  }

  /** In some run a stamp of this kind is earlier than the stamp it replaces. */
  ghost predicate CanGoBack(kind: Kind) {
    exists c, i: nat :: ReachableClocked(c) && GoesBack(c, i) && KindOf(c, i) == kind
  }

  // ---- Fast stamps that are not neighbours ----

  /** Stamps ascend where none goes back. */
  lemma {:induction false} Ascends(c: Clocked, i: nat, j: nat)
    requires i < j <= |c.stamps| && forall m :: i < m < j ==> !GoesBack(c, m)
    ensures Base(c.stamps, j) >= c.stamps[i].at
    decreases j
  {
    if j == i + 1 {
    } else {
      Ascends(c, i, j - 1);
      assert !GoesBack(c, j - 1);
    }
  }

  predicate FastPairTooClose(c: Clocked, i: nat, j: nat) {
    i < j < |c.stamps| && c.stamps[i].Fast? && c.stamps[j].Fast? && c.stamps[j].at < c.stamps[i].at + THROTTLE_MS
  }

  predicate BackBetween(c: Clocked, i: nat, j: nat) {
    exists m :: i < m < j && GoesBack(c, m)
  }

  /** In some run two fast stamps are less than one interval apart, with or without a stamp between them that goes
      back. */
  ghost predicate FastCanBeClose(back: bool) {
    exists c, i: nat, j: nat :: ReachableClocked(c) && FastPairTooClose(c, i, j) && BackBetween(c, i, j) == back
  }

  lemma FastPairApart(c: Clocked, i: nat, j: nat)
    requires ReachableClocked(c) && FastPairTooClose(c, i, j)
    ensures BackBetween(c, i, j)
  {
    StampSpacing(c, j);
    if !BackBetween(c, i, j) {
      Ascends(c, i, j);
    }
  }

  // ---- Which states allow an early stamp ----

  /** Flusher `f` can stamp a time below `bound`. */
  predicate CanStampBelow(c: Clocked, f: nat, bound: nat) {
    f < |c.st.flushers| && f < |c.due| &&
    match c.st.flushers[f]
    case Sleeping(_) => c.now < bound && c.due[f] < bound
    case Taking => c.now < bound
    case Stamping(_) => if Flusher(f) in c.held then c.held[Flusher(f)].at < bound else c.now < bound
    case _ => false
  }

  ghost predicate Unstamped(c: Clocked, c': Clocked) {
    exists e, now :: CanAt(c, e, now) && !Stamps(c.st, e) && c' == DoAt(c, e, now)
  }

  /** In some continuation the very next stamp is below `bound`. */
  ghost predicate NextCanBeBelow(c: Clocked, bound: nat) {
    exists c', e, now ::
      Runs.Leads(Unstamped, c, c') && CanAt(c', e, now) && Stamps(c'.st, e) && NewStamp(c', e, now).at < bound
  }

  ghost predicate NobodyBelow(c: Clocked, bound: nat) {
    ClockInv(c) && bound <= c.st.sh.last + THROTTLE_MS && forall f :: !CanStampBelow(c, f, bound)
  }

  lemma NotBelowStays(c: Clocked, e: ClockStep, now: nat, f: nat, bound: nat)
    requires Timely(c) && ReadingsFit(c) && FlushersLate(c) && bound <= c.st.sh.last + THROTTLE_MS
    requires !CanStampBelow(c, f, bound) && CanAt(c, e, now) && !Stamps(c.st, e)
    ensures !CanStampBelow(DoAt(c, e, now), f, bound)
  {
    if Arms(c.st, e) {
      Armed(c, e, now);
      assert ReadingFits(c, Sub(e.step.k));
    } else {
      NotArmed(c, e, now);
    }
  }

  lemma NobodyBelowStays(c: Clocked, e: ClockStep, now: nat, bound: nat)
    requires NobodyBelow(c, bound) && CanAt(c, e, now) && !Stamps(c.st, e)
    ensures NobodyBelow(DoAt(c, e, now), bound)
  {
    ClockInvStep(c, e, now);
    NotStamped(c, e, now);
    forall f: nat ensures !CanStampBelow(DoAt(c, e, now), f, bound) {
      NotBelowStays(c, e, now, f, bound);
    }
  }

  lemma StampNotBelow(c: Clocked, e: ClockStep, now: nat, bound: nat)
    requires NobodyBelow(c, bound) && CanAt(c, e, now) && Stamps(c.st, e)
    ensures NewStamp(c, e, now).at >= bound
  {
    if e.step.Flush? {
      assert !CanStampBelow(c, e.step.f, bound);
    }
  }

  lemma NotBelowFrom(c: Clocked, c': Clocked, bound: nat)
    requires NobodyBelow(c, bound) && Runs.Leads(Unstamped, c, c')
    ensures NobodyBelow(c', bound)
  {
    var good := d => NobodyBelow(d, bound);
    forall d, d' | good(d) && Unstamped(d, d') ensures good(d') {
      var e, now :| CanAt(d, e, now) && !Stamps(d.st, e) && d' == DoAt(d, e, now);
      NobodyBelowStays(d, e, now, bound);
    }
    Runs.AlwaysFrom(Unstamped, good, c, c');
  }

  lemma On(c0: Clocked, c: Clocked, e: ClockStep, now: nat) returns (c': Clocked)
    requires Runs.Leads(Unstamped, c0, c) && CanAt(c, e, now) && !Stamps(c.st, e)
    ensures Runs.Leads(Unstamped, c0, c') && c' == DoAt(c, e, now)
  {
    c' := DoAt(c, e, now);
    Runs.LeadsOn(Unstamped, c0, c, c');
  }

  /** A new submission fills the mailbox at time `t`. */
  lemma FillsAt(c: Clocked, t: nat) returns (c': Clocked)
    requires ReadingsFit(c) && c.now <= t < c.st.sh.last + THROTTLE_MS
    ensures Runs.Leads(Unstamped, c, c') && c'.now == t && c'.due == c.due && c'.st.flushers == c.st.flushers
    ensures c'.st.sh == c.st.sh.(pending := Some(|c.st.subs|))
    ensures forall f :: Flusher(f) in c'.held <==> Flusher(f) in c.held
  {
    var k := |c.st.subs|;
    assert Sub(k) in c.held ==> ReadingFits(c, Sub(k));
    Runs.Stay(Unstamped, c);
    c' := On(c, c, Access(Submit), t);
    c' := On(c, c', Read(Sub(k)), t);
    c' := On(c, c', Access(Proceed(k, t)), t);
    assert c'.st.subs[k].Pend?;
    c' := On(c, c', Access(Proceed(k, t)), t);
  }

  lemma WakesAt(c0: Clocked, c: Clocked, f: nat) returns (c': Clocked)
    requires Runs.Leads(Unstamped, c0, c) && f < |c.st.flushers| && f < |c.due| && Flusher(f) !in c.held
    requires c.st.flushers[f].Taking? || (c.st.flushers[f].Sleeping? && c.due[f] <= c.now)
    ensures Runs.Leads(Unstamped, c0, c') && c'.now == c.now && f < |c'.st.flushers| && c'.st.flushers[f].Taking?
    ensures c'.st.sh.pending == c.st.sh.pending && Flusher(f) !in c'.held
  {
    if c.st.flushers[f].Taking? {
      c' := c;
    } else {
      c' := On(c0, c, Access(Flush(f, 0)), c.now);
    }
  }

  lemma TakesAt(c0: Clocked, c: Clocked, f: nat) returns (c': Clocked)
    requires Runs.Leads(Unstamped, c0, c) && f < |c.st.flushers| && Flusher(f) !in c.held
    requires c.st.flushers[f].Taking? && c.st.sh.pending.Some?
    ensures Runs.Leads(Unstamped, c0, c') && c'.now == c.now
    ensures f < |c'.st.flushers| && c'.st.flushers[f].Stamping? && Flusher(f) !in c'.held
  {
    c' := On(c0, c, Access(Flush(f, 0)), c.now);
  }

  lemma ReadsAt(c0: Clocked, c: Clocked, f: nat) returns (c': Clocked)
    requires Runs.Leads(Unstamped, c0, c) && f < |c.st.flushers| && c.st.flushers[f].Stamping? && Flusher(f) !in c.held
    ensures Runs.Leads(Unstamped, c0, c') && f < |c'.st.flushers| && c'.st.flushers[f].Stamping?
    ensures Flusher(f) in c'.held && c'.held[Flusher(f)].at == c.now
  {
    c' := On(c0, c, Read(Flusher(f)), c.now);
  }

  /** Such a flusher can be made to stamp: if need be a new submission fills the mailbox for it. */
  lemma StampsBelow(c: Clocked, f: nat, bound: nat)
    requires ReadingsFit(c) && CanStampBelow(c, f, bound) && bound <= c.st.sh.last + THROTTLE_MS
    ensures NextCanBeBelow(c, bound)
  {
    var c' := c;
    assert Flusher(f) in c.held ==> ReadingFits(c, Flusher(f));
    Runs.Stay(Unstamped, c);
    if Flusher(f) !in c.held {
      if !c.st.flushers[f].Stamping? {
        c' := FillsAt(c, if c.st.flushers[f].Sleeping? && c.now < c.due[f] then c.due[f] else c.now);
        c' := WakesAt(c, c', f);
        c' := TakesAt(c, c', f);
      }
      c' := ReadsAt(c, c', f);
    }
    var t := c'.held[Flusher(f)].at;
    assert CanAt(c', Access(Flush(f, t)), c'.now) && Stamps(c'.st, Access(Flush(f, t)));
    assert NewStamp(c', Access(Flush(f, t)), c'.now).at == t;
  }

  /** The exact condition: for any bound up to one interval after the last stamp, the next stamp from a reachable state
      can be below it if and only if some flusher holds a reading below it, or can still take one in time. */
  lemma NextStampBelowIff(c: Clocked, bound: nat)
    requires ReachableClocked(c) && bound <= c.st.sh.last + THROTTLE_MS
    ensures NextCanBeBelow(c, bound) <==> exists f :: CanStampBelow(c, f, bound)
  {
    ReachableClockInv(c);
    if f :| CanStampBelow(c, f, bound) {
      StampsBelow(c, f, bound);
    } else {
      forall c', e, now | Runs.Leads(Unstamped, c, c') && CanAt(c', e, now) && Stamps(c'.st, e)
        ensures NewStamp(c', e, now).at >= bound
      {
        NotBelowFrom(c, c', bound);
        StampNotBelow(c', e, now, bound);
      }
    }
  }

  /** In particular the next stamp can go back if and only if some flusher holds a reading older than the last stamp.
      */
  lemma NextStampBackIff(c: Clocked)
    requires ReachableClocked(c)
    ensures NextCanBeBelow(c, c.st.sh.last) <==>
            exists f :: Flusher(f) in c.held && c.held[Flusher(f)].at < c.st.sh.last
  {
    ReachableClockInv(c);
    NextStampBelowIff(c, c.st.sh.last);
    if f :| Flusher(f) in c.held && c.held[Flusher(f)].at < c.st.sh.last {
      assert ReadingFits(c, Flusher(f));
      assert CanStampBelow(c, f, c.st.sh.last);
    }
    if f :| CanStampBelow(c, f, c.st.sh.last) {
      assert Flusher(f) in c.held && c.held[Flusher(f)].at < c.st.sh.last;
    }
  }
}
