/**
 What decides whether a snapshot of the final board reaches the channel, once no `fetch_add` is ahead: the throttle,
 which submissions carry the final board (a final snapshot, any other being stale), and which connections are about to
 hand over the one or the other.
 */
module DeliveryView {
  import opened Wrappers
  import T = Throttle

  /** `finalSubs` are the submissions that carry the final board; the readers are the connections that have such a
      snapshot, or a stale one, still to submit. */
  datatype View = View(thr: T.State, finalSubs: set<nat>, finalReaders: set<nat>, staleReaders: set<nat>)

  datatype Step = HandFinal(c: nat) | HandStale(c: nat) | Task(task: T.Step)

  predicate Enabled(v: View, step: Step) {
    match step
    case HandFinal(c) => c in v.finalReaders
    case HandStale(c) => c in v.staleReaders
    case Task(task) => T.Enabled(v.thr, task) && !task.Submit?
  }

  function Do(v: View, step: Step): View
    requires Enabled(v, step)
  {
    match step
    case HandFinal(c) =>
      View(T.Do(v.thr, T.Submit), v.finalSubs + {|v.thr.subs|}, v.finalReaders - {c}, v.staleReaders)
    case HandStale(c) => View(T.Do(v.thr, T.Submit), v.finalSubs, v.finalReaders, v.staleReaders - {c})
    case Task(task) => v.(thr := T.Do(v.thr, task))
  }

  /** Only submissions that have begun carry the board, and one at its compare-exchange read the clock at least one
      interval after the time it expects. */
  ghost predicate Valid(v: View) {
    && T.Inv(v.thr)
    && (forall k :: k in v.finalSubs ==> k < |v.thr.subs|)
    && CasLate(v.thr)
  }

  predicate CasLate(t: T.State) {
    forall k :: 0 <= k < |t.subs| && t.subs[k].Cas? ==> t.subs[k].seen + T.THROTTLE_MS <= t.subs[k].now
  }

  lemma CasLateKept(t: T.State, task: T.Step)
    requires CasLate(t) && T.Enabled(t, task)
    ensures CasLate(T.Do(t, task))
  {
  }

  // ---- The condition ----

  /** The submission may still go to the mailbox. */
  predicate Undecided(t: T.State, k: nat) {
    k < |t.subs| && (t.subs[k].Start? || t.subs[k].Cas? || t.subs[k].Pend?)
  }

  /** A snapshot that has still to take effect: with a connection, or in a submission. */
  datatype Token = Reader(c: nat) | Sub(k: nat)

  /** A stale snapshot that may still be written over a final one. */
  predicate Threat(v: View, t: Token) {
    match t
    case Reader(c) => c in v.staleReaders
    case Sub(k) => Undecided(v.thr, k) && k !in v.finalSubs
  }

  predicate Hope(v: View, t: Token) {
    match t
    case Reader(c) => c in v.finalReaders
    case Sub(k) => Undecided(v.thr, k) && k in v.finalSubs
  }

  /** On the channel, about to be sent there, or in the hands of a flusher. */
  ghost predicate OnWay(t: T.State, k: nat) {
    || (k < |t.subs| && t.subs[k].Send?)
    || T.Carriers(t, k) != {}
    || T.Positions(t, k) != {}
  }

  ghost predicate FinalOnWay(v: View) {
    exists k :: k in v.finalSubs && OnWay(v.thr, k)
  }

  predicate FinalWaits(v: View) {
    v.thr.sh.pending.Some? && v.thr.sh.pending.value in v.finalSubs
  }

  ghost predicate FinalOwed(v: View) {
    FinalWaits(v) || exists t :: Hope(v, t)
  }

  ghost predicate Threatened(v: View) {
    exists t :: Threat(v, t)
  }

  ghost predicate TwoThreats(v: View) {
    exists t, u :: t != u && Threat(v, t) && Threat(v, u)
  }

  /** Submission `k` is about to win its compare-exchange. */
  predicate Wins(t: T.State, k: nat) {
    k < |t.subs| && t.subs[k].Cas? && t.subs[k].seen == t.sh.last
  }

  ghost predicate Winner(v: View) {
    exists k :: Wins(v.thr, k)
  }

  /** A flusher is going to stamp for a stale snapshot, which makes every submission at its compare-exchange lose. */
  ghost predicate StaleStamps(v: View, f: nat) {
    f < |v.thr.flushers| && v.thr.flushers[f].Stamping? && v.thr.flushers[f].id !in v.finalSubs
  }

  predicate StaleWaits(v: View) {
    v.thr.sh.pending.Some? && v.thr.sh.pending.value !in v.finalSubs
  }

  ghost predicate StaleStampAhead(v: View) {
    StaleWaits(v) || exists f :: StaleStamps(v, f)
  }

  /** A final snapshot is on its way; or one is owed and no stale one can be written over it: either none is left, or
      the only one left cannot be kept from losing the race, because a submission is about to win its compare-exchange.
      */
  ghost predicate Safe(v: View) {
    || FinalOnWay(v)
    || (FinalOwed(v) && !Threatened(v))
    || (FinalOwed(v) && Winner(v) && !TwoThreats(v) && !StaleStampAhead(v))
  }

  // ---- What one step changes ----

  /** The step takes submission `k` out of the race: it writes the mailbox or wins its compare-exchange. */
  predicate Decides(t: T.State, task: T.Step, k: nat)
    requires T.Enabled(t, task)
  {
    task.Proceed? && task.k == k && (t.subs[k].Pend? || Wins(t, k))
  }

  lemma UndecidedAfter(t: T.State, task: T.Step, k: nat)
    requires T.Enabled(t, task) && !task.Submit?
    ensures Undecided(T.Do(t, task), k) <==> Undecided(t, k) && !Decides(t, task, k)
  {
  }

  lemma TokensAfter(v: View, task: T.Step, t: Token)
    requires Enabled(v, Task(task))
    ensures Threat(Do(v, Task(task)), t) <==> Threat(v, t) && !(t.Sub? && Decides(v.thr, task, t.k))
    ensures Hope(Do(v, Task(task)), t) <==> Hope(v, t) && !(t.Sub? && Decides(v.thr, task, t.k))
  {
    if t.Sub? {
      UndecidedAfter(v.thr, task, t.k);
    }
  }

  lemma TokensFinalHanded(v: View, c: nat, t: Token)
    requires Valid(v) && Enabled(v, HandFinal(c))
    ensures Threat(Do(v, HandFinal(c)), t) <==> Threat(v, t)
    ensures Hope(Do(v, HandFinal(c)), t) <==> t == Sub(|v.thr.subs|) || (Hope(v, t) && t != Reader(c))
  {
  }

  lemma TokensStaleHanded(v: View, c: nat, t: Token)
    requires Valid(v) && Enabled(v, HandStale(c))
    ensures Threat(Do(v, HandStale(c)), t) <==> t == Sub(|v.thr.subs|) || (Threat(v, t) && t != Reader(c))
    ensures Hope(Do(v, HandStale(c)), t) <==> Hope(v, t)
  {
  }

  lemma OnWayStays(t: T.State, task: T.Step, k: nat)
    requires T.Enabled(t, task) && OnWay(t, k)
    ensures OnWay(T.Do(t, task), k)
  {
    var t' := T.Do(t, task);
    if i :| i in T.Positions(t, k) {
      assert i in T.Positions(t', k);
    } else if f :| f in T.Carriers(t, k) {
      if task.Flush? && task.f == f && t.flushers[f].Sending? {
        assert |t.sh.chan| in T.Positions(t', k);
      } else {
        assert f in T.Carriers(t', k);
      }
    } else if task.Proceed? && task.k == k {
      assert |t.sh.chan| in T.Positions(t', k);
    }
  }

  /** The step takes submission `k` out of the mailbox. */
  predicate Takes(t: T.State, task: T.Step, k: nat)
    requires T.Enabled(t, task)
  {
    task.Flush? && t.flushers[task.f].Taking? && t.sh.pending == Some(k)
  }

  /** Only a won compare-exchange and a flusher's take put a submission on its way. */
  lemma OnWayBefore(t: T.State, task: T.Step, k: nat)
    requires T.Enabled(t, task) && OnWay(T.Do(t, task), k)
    ensures OnWay(t, k) || (Decides(t, task, k) && Wins(t, k)) || Takes(t, task, k)
  {
    var t' := T.Do(t, task);
    if f :| f in T.Carriers(t', k) {
      if !(task.Flush? && task.f == f) {
        assert f in T.Carriers(t, k);
      } else if !t.flushers[f].Taking? {
        assert f in T.Carriers(t, k);
      }
    } else if i :| i in T.Positions(t', k) {
      if i < |t.sh.chan| {
        assert i in T.Positions(t, k);
      } else if task.Flush? {
        assert task.f in T.Carriers(t, k);
      }
    }
  }

  lemma TakenIsOnWay(t: T.State, task: T.Step, k: nat)
    requires T.Enabled(t, task) && (Takes(t, task, k) || (Decides(t, task, k) && Wins(t, k)))
    ensures OnWay(T.Do(t, task), k)
  {
    if task.Flush? {
      assert task.f in T.Carriers(T.Do(t, task), k);
    }
  }

  // ---- From a safe state every step leads to a safe state ----

  lemma FinalOnWayStays(v: View, step: Step)
    requires FinalOnWay(v) && Enabled(v, step)
    ensures FinalOnWay(Do(v, step))
  {
    var k :| k in v.finalSubs && OnWay(v.thr, k);
    OnWayStays(v.thr, if step.Task? then step.task else T.Submit, k);
    assert k in Do(v, step).finalSubs;
  }

  /** The step writes submission `k` to the mailbox. */
  predicate Fills(t: T.State, task: T.Step, k: nat) {
    T.Enabled(t, task) && task.Proceed? && task.k == k && t.subs[k].Pend?
  }

  /** An owed final snapshot stays owed or gets on its way, unless it waits in the mailbox and is overwritten. */
  lemma OwedStays(v: View, task: T.Step)
    requires Enabled(v, Task(task)) && FinalOwed(v)
    requires forall k :: Fills(v.thr, task, k) ==> k in v.finalSubs || exists t :: Hope(v, t)
    ensures FinalOwed(Do(v, Task(task))) || FinalOnWay(Do(v, Task(task)))
  {
    var v' := Do(v, Task(task));
    if t :| Hope(v, t) {
      TokensAfter(v, task, t);
      if t.Sub? && Decides(v.thr, task, t.k) {
        if Wins(v.thr, t.k) {
          TakenIsOnWay(v.thr, task, t.k);
        }
      } else {
        assert Hope(v', t);
      }
    } else {
      var k := v.thr.sh.pending.value;
      if Takes(v.thr, task, k) {
        TakenIsOnWay(v.thr, task, k);
      } else if task.Proceed? && v.thr.subs[task.k].Pend? {
        assert Fills(v.thr, task, task.k);
      }
    }
  }

  lemma UnthreatenedStays(v: View, task: T.Step)
    requires Enabled(v, Task(task)) && FinalOwed(v) && !Threatened(v)
    ensures Safe(Do(v, Task(task)))
  {
    forall k | Fills(v.thr, task, k) ensures k in v.finalSubs {
      assert !Threat(v, Sub(k));
    }
    OwedStays(v, task);
    forall t ensures !Threat(Do(v, Task(task)), t) {
      TokensAfter(v, task, t);
    }
  }

  /** Somebody is about to win, at most one stale snapshot is left, and nothing stale is going to be stamped. */
  ghost predicate Race(v: View) {
    FinalOwed(v) && Winner(v) && !TwoThreats(v) && !StaleStampAhead(v)
  }

  lemma ThreatsShrink(v: View, task: T.Step)
    requires Enabled(v, Task(task)) && !TwoThreats(v)
    ensures !TwoThreats(Do(v, Task(task)))
  {
    var v' := Do(v, Task(task));
    forall t, u | t != u && Threat(v', t) ensures !Threat(v', u) {
      TokensAfter(v, task, t);
      TokensAfter(v, task, u);
    }
  }

  /** When the only stale snapshot takes effect, no threat is left. */
  lemma LastThreatGone(v: View, task: T.Step, k: nat)
    requires Enabled(v, Task(task)) && !TwoThreats(v) && Threat(v, Sub(k)) && Decides(v.thr, task, k)
    ensures !Threatened(Do(v, Task(task)))
  {
    forall t ensures !Threat(Do(v, Task(task)), t) {
      TokensAfter(v, task, t);
    }
  }

  /** In a race there is a final snapshot that is not the one in the mailbox, or the last stale one is winning. */
  lemma RaceHopes(v: View, k: nat)
    requires Race(v) && Threat(v, Sub(k)) && !Wins(v.thr, k)
    ensures exists t :: Hope(v, t)
  {
    var w :| Wins(v.thr, w);
    assert w != k && !(Sub(w) != Sub(k) && Threat(v, Sub(w)) && Threat(v, Sub(k)));
    assert Hope(v, Sub(w));
  }

  lemma RaceDecided(v: View, task: T.Step, k: nat)
    requires Enabled(v, Task(task)) && Race(v) && Decides(v.thr, task, k)
    ensures Safe(Do(v, Task(task)))
  {
    var v' := Do(v, Task(task));
    ThreatsShrink(v, task);
    if k in v.finalSubs {
      if Wins(v.thr, k) {
        TakenIsOnWay(v.thr, task, k);
      } else {
        var w :| Wins(v.thr, w);
        assert Wins(v'.thr, w);
        assert FinalWaits(v');
        NoStampAheadStays(v, task);
      }
    } else {
      assert Threat(v, Sub(k));
      if !Wins(v.thr, k) {
        RaceHopes(v, k);
      }
      OwedStays(v, task);
      LastThreatGone(v, task, k);
    }
  }

  lemma NoStampAheadStays(v: View, task: T.Step)
    requires Enabled(v, Task(task)) && !StaleStampAhead(v)
    requires forall k :: Fills(v.thr, task, k) ==> k in v.finalSubs
    ensures !StaleStampAhead(Do(v, Task(task)))
  {
    var v' := Do(v, Task(task));
    forall f ensures !StaleStamps(v', f) {
      assert !StaleStamps(v, f);
    }
    if task.Proceed? && v.thr.subs[task.k].Pend? {
      assert Fills(v.thr, task, task.k);
    }
  }

  lemma RaceGoesOn(v: View, task: T.Step)
    requires Enabled(v, Task(task)) && Race(v) && !FinalOnWay(v)
    requires forall k :: !Decides(v.thr, task, k)
    ensures Safe(Do(v, Task(task)))
  {
    var v' := Do(v, Task(task));
    assert forall k :: Fills(v.thr, task, k) ==> Decides(v.thr, task, k);
    ThreatsShrink(v, task);
    OwedStays(v, task);
    NoStampAheadStays(v, task);
    NobodyStamps(v, task);
    var w :| Wins(v.thr, w);
    assert Wins(v'.thr, w);
  }

  /** A flusher that stamps while no final snapshot is on its way holds a stale one. */
  lemma StampingIsStale(v: View, f: nat)
    requires !FinalOnWay(v) && f < |v.thr.flushers| && v.thr.flushers[f].Stamping?
    ensures StaleStamps(v, f)
  {
    var k := v.thr.flushers[f].id;
    assert f in T.Carriers(v.thr, k);
    assert k in v.finalSubs ==> OnWay(v.thr, k);
  }

  /** Without a decision only a flusher stamps, and it would have to hold a final snapshot. */
  lemma NobodyStamps(v: View, task: T.Step)
    requires Enabled(v, Task(task)) && !StaleStampAhead(v) && !FinalOnWay(v)
    requires forall k :: !Decides(v.thr, task, k)
    ensures T.Do(v.thr, task).sh.last == v.thr.sh.last
    ensures forall k :: Wins(v.thr, k) ==> Wins(T.Do(v.thr, task), k)
  {
    if task.Flush? && v.thr.flushers[task.f].Stamping? {
      StampingIsStale(v, task.f);
      assert false;
    }
    if task.Proceed? {
      assert !Decides(v.thr, task, task.k);
    }
  }

  lemma TaskStaysSafe(v: View, task: T.Step)
    requires Enabled(v, Task(task)) && Safe(v)
    ensures Safe(Do(v, Task(task)))
  {
    if FinalOnWay(v) {
      FinalOnWayStays(v, Task(task));
    } else if !Threatened(v) {
      UnthreatenedStays(v, task);
    } else if k :| Decides(v.thr, task, k) {
      RaceDecided(v, task, k);
    } else {
      RaceGoesOn(v, task);
    }
  }

  // ---- A hand-over changes nothing that matters ----

  lemma HandedOnWay(v: View, step: Step)
    requires Valid(v) && Enabled(v, step) && !step.Task?
    ensures FinalOnWay(Do(v, step)) <==> FinalOnWay(v)
    ensures StaleStampAhead(Do(v, step)) <==> StaleStampAhead(v)
    ensures Winner(Do(v, step)) <==> Winner(v)
  {
    var v' := Do(v, step);
    if FinalOnWay(v) {
      FinalOnWayStays(v, step);
    }
    if k :| k in v'.finalSubs && OnWay(v'.thr, k) {
      OnWayBefore(v.thr, T.Submit, k);
      OnWayIsOld(v.thr, k);
    }
    PendingIsOld(v);
    forall f: nat ensures StaleStamps(v', f) <==> StaleStamps(v, f) {
      if f < |v.thr.flushers| && v.thr.flushers[f].Stamping? {
        CarriedIsOld(v.thr, f, v.thr.flushers[f].id);
      }
    }
    forall k ensures Wins(v'.thr, k) <==> Wins(v.thr, k) {
    }
  }

  lemma OnWayIsOld(t: T.State, k: nat)
    requires T.Accounted(t) && OnWay(t, k)
    ensures k < |t.subs|
  {
    assert T.Places(t, k) == if k < |t.subs| then 1 else 0;
  }

  lemma CarriedIsOld(t: T.State, f: nat, k: nat)
    requires T.Accounted(t) && f < |t.flushers| && T.Carries(t.flushers[f], k)
    ensures k < |t.subs|
  {
    assert f in T.Carriers(t, k);
    OnWayIsOld(t, k);
  }

  lemma PendingIsOld(v: View)
    requires Valid(v)
    ensures v.thr.sh.pending.Some? ==> v.thr.sh.pending.value < |v.thr.subs|
  {
    if v.thr.sh.pending.Some? {
      T.OnlyWaiting(v.thr, v.thr.sh.pending.value);
    }
  }

  /** The token that stands for the same snapshot after connection `c` has begun submission `n`, and before. */
  function Moved(n: nat, c: nat, t: Token): Token {
    if t == Reader(c) then Sub(n) else t
  }

  function Former(n: nat, c: nat, t: Token): Token {
    if t == Sub(n) then Reader(c) else t
  }

  lemma FinalHandedTokens(v: View, c: nat)
    requires Valid(v) && Enabled(v, HandFinal(c))
    ensures FinalOwed(Do(v, HandFinal(c))) <==> FinalOwed(v)
    ensures Threatened(Do(v, HandFinal(c))) <==> Threatened(v)
    ensures TwoThreats(Do(v, HandFinal(c))) <==> TwoThreats(v)
  {
    var v' := Do(v, HandFinal(c));
    var n := |v.thr.subs|;
    forall t ensures Threat(v', t) <==> Threat(v, t) {
      TokensFinalHanded(v, c, t);
    }
    assert Hope(v, Reader(c));
    TokensFinalHanded(v, c, Sub(n));
    assert Hope(v', Sub(n));
  }

  lemma StaleHandedTokens(v: View, c: nat)
    requires Valid(v) && Enabled(v, HandStale(c))
    ensures FinalOwed(Do(v, HandStale(c))) <==> FinalOwed(v)
    ensures Threatened(Do(v, HandStale(c))) <==> Threatened(v)
    ensures TwoThreats(Do(v, HandStale(c))) <==> TwoThreats(v)
  {
    var v' := Do(v, HandStale(c));
    var n := |v.thr.subs|;
    forall t ensures Hope(v', t) <==> Hope(v, t) {
      TokensStaleHanded(v, c, t);
    }
    forall t ensures Threat(v', t) <==> t == Sub(n) || (Threat(v, t) && t != Reader(c)) {
      TokensStaleHanded(v, c, t);
    }
    assert Threat(v, Reader(c)) && Threat(v', Sub(n));
    if t, u :| t != u && Threat(v, t) && Threat(v, u) {
      assert Threat(v', Moved(n, c, t)) && Threat(v', Moved(n, c, u)) && Moved(n, c, t) != Moved(n, c, u);
    }
    if t, u :| t != u && Threat(v', t) && Threat(v', u) {
      assert Threat(v, Former(n, c, t)) && Threat(v, Former(n, c, u)) && Former(n, c, t) != Former(n, c, u);
    }
  }

  /** A hand-over keeps a safe state safe and an unsafe one unsafe. */
  lemma HandKeepsRace(v: View, step: Step)
    requires Valid(v) && Enabled(v, step) && !step.Task?
    ensures Safe(Do(v, step)) <==> Safe(v)
  {
    HandedOnWay(v, step);
    match step
    case HandFinal(c) => FinalHandedTokens(v, c);
    case HandStale(c) => StaleHandedTokens(v, c);
  }

  // ---- From an unsafe state some step leads to an unsafe state ----

  /** All tasks are done and nothing is left to hand over. */
  ghost predicate AtRest(v: View) {
    v.finalReaders == {} && v.staleReaders == {} && T.Quiescent(v.thr)
  }

  lemma NotOnWayStays(v: View, task: T.Step)
    requires Enabled(v, Task(task)) && !FinalOnWay(v)
    requires forall k :: k in v.finalSubs ==> !(Decides(v.thr, task, k) && Wins(v.thr, k)) && !Takes(v.thr, task, k)
    ensures !FinalOnWay(Do(v, Task(task)))
  {
    forall k | k in v.finalSubs ensures !OnWay(T.Do(v.thr, task), k) {
      assert !OnWay(v.thr, k);
      if OnWay(T.Do(v.thr, task), k) {
        OnWayBefore(v.thr, task, k);
      }
    }
  }

  /** With nothing final on its way or owed, nothing final ever will be. */
  lemma DoomStays(v: View, step: Step)
    requires Valid(v) && Enabled(v, step) && !FinalOnWay(v) && !FinalOwed(v)
    ensures !Safe(Do(v, step))
  {
    if step.Task? {
      var task := step.task;
      forall k | k in v.finalSubs ensures !Decides(v.thr, task, k) {
        assert !Hope(v, Sub(k));
      }
      NotOnWayStays(v, task);
      forall t ensures !Hope(Do(v, step), t) {
        TokensAfter(v, task, t);
      }
      assert task.Proceed? ==> !Decides(v.thr, task, task.k) || task.k !in v.finalSubs;
    } else {
      HandKeepsRace(v, step);
    }
  }

  /** A step that decides nothing, stamps nothing and takes nothing out of the mailbox. */
  predicate Harmless(t: T.State, task: T.Step) {
    T.Enabled(t, task) &&
    match task
    case Submit => false
    case Flush(f, _) => t.flushers[f].Sleeping?
    case Proceed(k, now) =>
      match t.subs[k]
      case Start => T.SaturatingSub(now, t.sh.last) < T.THROTTLE_MS
      case Cas(_, seen) => seen != t.sh.last
      case Swap => true
      case Arm => true
      case _ => false
  }

  lemma HarmlessKeepsShared(t: T.State, task: T.Step)
    requires Harmless(t, task)
    ensures T.Do(t, task).sh.last == t.sh.last && T.Do(t, task).sh.pending == t.sh.pending
    ensures forall k :: !Decides(t, task, k) && !Takes(t, task, k)
    ensures forall k :: Wins(T.Do(t, task), k) <==> Wins(t, k)
    ensures forall f :: 0 <= f < |t.flushers| && (t.flushers[f].Stamping? || T.Do(t, task).flushers[f].Stamping?) ==>
              T.Do(t, task).flushers[f] == t.flushers[f]
    ensures forall f :: |t.flushers| <= f < |T.Do(t, task).flushers| ==> !T.Do(t, task).flushers[f].Stamping?
  {
  }

  lemma HarmlessKeepsRace(v: View, task: T.Step)
    requires Enabled(v, Task(task)) && Harmless(v.thr, task)
    ensures Safe(Do(v, Task(task))) <==> Safe(v)
  {
    var v' := Do(v, Task(task));
    HarmlessKeepsShared(v.thr, task);
    if FinalOnWay(v) {
      FinalOnWayStays(v, Task(task));
    } else {
      NotOnWayStays(v, task);
    }
    forall t ensures (Threat(v', t) <==> Threat(v, t)) && (Hope(v', t) <==> Hope(v, t)) {
      TokensAfter(v, task, t);
    }
    HarmlessKeepsStamps(v, task);
    if w :| Wins(v.thr, w) {
      assert Wins(v'.thr, w);
    }
  }

  lemma HarmlessKeepsStamps(v: View, task: T.Step)
    requires Enabled(v, Task(task)) && Harmless(v.thr, task)
    ensures StaleStampAhead(Do(v, Task(task))) <==> StaleStampAhead(v)
  {
    HarmlessKeepsShared(v.thr, task);
    forall f: nat ensures StaleStamps(Do(v, Task(task)), f) <==> StaleStamps(v, f) {
    }
  }

  /** Nobody at its compare-exchange has lost already. */
  predicate NoLosers(t: T.State) {
    forall k :: 0 <= k < |t.subs| && t.subs[k].Cas? ==> t.subs[k].seen == t.sh.last
  }

  /** A flusher that stamps for a stale snapshot makes everybody lose. */
  lemma StampBeatsAll(v: View, f: nat)
    requires !FinalOnWay(v) && Threatened(v) && NoLosers(v.thr) && StaleStamps(v, f)
    ensures !Safe(Do(v, Task(T.Flush(f, v.thr.sh.last + 1))))
  {
    var task := T.Flush(f, v.thr.sh.last + 1);
    var v' := Do(v, Task(task));
    NotOnWayStays(v, task);
    var t :| Threat(v, t);
    TokensAfter(v, task, t);
    assert v'.thr.sh.last == v.thr.sh.last + 1 && v'.thr.subs == v.thr.subs;
    assert forall k :: !Wins(v'.thr, k);
  }

  /** So does a stale submission that wins, and if two stale ones are left, the other is still there. */
  lemma StaleWinnerBeatsAll(v: View, k: nat)
    requires !FinalOnWay(v) && TwoThreats(v) && NoLosers(v.thr) && CasLate(v.thr) && Wins(v.thr, k) && k !in v.finalSubs
    ensures !Safe(Do(v, Task(T.Proceed(k, 0))))
  {
    var task := T.Proceed(k, 0);
    var v' := Do(v, Task(task));
    NotOnWayStays(v, task);
    var t, u :| t != u && Threat(v, t) && Threat(v, u);
    TokensAfter(v, task, t);
    TokensAfter(v, task, u);
    assert Threat(v', t) || Threat(v', u);
    assert v'.thr.sh.last > v.thr.sh.last;
    assert forall j :: !Wins(v'.thr, j);
  }

  /** A stale snapshot in the mailbox is taken by a flusher that will stamp for it. */
  lemma StaleTaken(v: View) returns (task: T.Step)
    requires Valid(v) && !Safe(v) && Threatened(v) && StaleWaits(v)
    ensures Enabled(v, Task(task)) && !Safe(Do(v, Task(task)))
  {
    assert T.Rescue(v.thr);
    if k :| 0 <= k < |v.thr.subs| && (v.thr.subs[k].Swap? || v.thr.subs[k].Arm?) {
      task := T.Proceed(k, 0);
      HarmlessKeepsRace(v, task);
    } else {
      var f :| 0 <= f < |v.thr.flushers| && (v.thr.flushers[f].Sleeping? || v.thr.flushers[f].Taking?);
      task := T.Flush(f, 0);
      if v.thr.flushers[f].Sleeping? {
        HarmlessKeepsRace(v, task);
      } else {
        NotOnWayStays(v, task);
        var t :| Threat(v, t);
        TokensAfter(v, task, t);
        assert StaleStamps(Do(v, Task(task)), f);
      }
    }
  }

  /** One of two stale submissions goes to the mailbox, from where a flusher will stamp for it. */
  lemma StaleFills(v: View, k: nat)
    requires !FinalOnWay(v) && TwoThreats(v) && Threat(v, Sub(k)) && v.thr.subs[k].Pend?
    ensures !Safe(Do(v, Task(T.Proceed(k, 0))))
  {
    var task := T.Proceed(k, 0);
    var v' := Do(v, Task(task));
    NotOnWayStays(v, task);
    var t, u :| t != u && Threat(v, t) && Threat(v, u);
    TokensAfter(v, task, t);
    TokensAfter(v, task, u);
    assert Threat(v', t) || Threat(v', u);
    assert StaleWaits(v');
  }

  /** While somebody is about to win, something stale can be made to change the time. */
  lemma UnsafeWinner(v: View) returns (step: Step)
    requires Valid(v) && !Safe(v) && Threatened(v) && NoLosers(v.thr) && (TwoThreats(v) || StaleStampAhead(v))
    ensures Enabled(v, step) && !Safe(Do(v, step))
  {
    if f :| StaleStamps(v, f) {
      StampBeatsAll(v, f);
      step := Task(T.Flush(f, v.thr.sh.last + 1));
    } else if StaleWaits(v) {
      var task := StaleTaken(v);
      step := Task(task);
    } else if k :| Wins(v.thr, k) && k !in v.finalSubs {
      StaleWinnerBeatsAll(v, k);
      step := Task(T.Proceed(k, 0));
    } else {
      var t, u :| t != u && Threat(v, t) && Threat(v, u);
      step := StaleMoves(v, t);
    }
  }

  /** A stale snapshot that is not at its compare-exchange moves towards the mailbox. */
  lemma StaleMoves(v: View, t: Token) returns (step: Step)
    requires Valid(v) && !Safe(v) && TwoThreats(v) && Threat(v, t) && (t.Sub? ==> !v.thr.subs[t.k].Cas?)
    ensures Enabled(v, step) && !Safe(Do(v, step))
  {
    match t
    case Reader(c) =>
      step := HandStale(c);
      HandKeepsRace(v, step);
    case Sub(k) =>
      if v.thr.subs[k].Start? {
        step := Task(T.Proceed(k, v.thr.sh.last));
        HarmlessKeepsRace(v, step.task);
      } else {
        step := Task(T.Proceed(k, 0));
        StaleFills(v, k);
      }
  }

  /** Nobody is at its compare-exchange. */
  predicate NobodyTries(t: T.State) {
    forall k :: 0 <= k < |t.subs| ==> !t.subs[k].Cas?
  }

  lemma NobodyWins(v: View, task: T.Step)
    requires NobodyTries(v.thr) && Enabled(v, Task(task)) && (task.Proceed? ==> !v.thr.subs[task.k].Start?)
    ensures !Winner(Do(v, Task(task)))
  {
  }

  /** A final snapshot is put into the mailbox, with a stale one left to overwrite it. */
  lemma FinalFills(v: View, k: nat)
    requires !FinalOnWay(v) && Threatened(v) && NobodyTries(v.thr) && Hope(v, Sub(k)) && v.thr.subs[k].Pend?
    ensures !Safe(Do(v, Task(T.Proceed(k, 0))))
  {
    var task := T.Proceed(k, 0);
    NotOnWayStays(v, task);
    NobodyWins(v, task);
    var t :| Threat(v, t);
    TokensAfter(v, task, t);
  }

  /** A stale snapshot overwrites the last final one. */
  lemma StaleOverwrites(v: View, k: nat)
    requires !FinalOnWay(v) && (forall t :: !Hope(v, t)) && Threat(v, Sub(k)) && v.thr.subs[k].Pend?
    ensures !Safe(Do(v, Task(T.Proceed(k, 0))))
  {
    var task := T.Proceed(k, 0);
    NotOnWayStays(v, task);
    forall t ensures !Hope(Do(v, Task(task)), t) {
      TokensAfter(v, task, t);
    }
  }

  /** With nobody at its compare-exchange, first every final snapshot goes to the mailbox, then a stale one. */
  lemma UnsafeQuiet(v: View) returns (step: Step)
    requires Valid(v) && !Safe(v) && Threatened(v) && NobodyTries(v.thr)
    ensures Enabled(v, step) && !Safe(Do(v, step))
  {
    var t: Token;
    if h :| Hope(v, h) {
      t := h;
    } else {
      t :| Threat(v, t);
    }
    match t
    case Reader(c) =>
      step := if c in v.finalReaders && Hope(v, t) then HandFinal(c) else HandStale(c);
      HandKeepsRace(v, step);
    case Sub(k) =>
      if v.thr.subs[k].Start? {
        step := Task(T.Proceed(k, v.thr.sh.last));
        HarmlessKeepsRace(v, step.task);
      } else {
        step := Task(T.Proceed(k, 0));
        if Hope(v, t) {
          FinalFills(v, k);
        } else {
          StaleOverwrites(v, k);
        }
      }
  }

  lemma AnyStep(v: View) returns (step: Step)
    requires !AtRest(v)
    ensures Enabled(v, step)
  {
    if c :| c in v.finalReaders {
      step := HandFinal(c);
    } else if c :| c in v.staleReaders {
      step := HandStale(c);
    } else if k :| 0 <= k < |v.thr.subs| && !v.thr.subs[k].Returned? {
      step := Task(T.Proceed(k, 0));
    } else {
      var f :| 0 <= f < |v.thr.flushers| && !v.thr.flushers[f].Done?;
      step := Task(T.Flush(f, 0));
    }
  }

  lemma UnsafeGoesOn(v: View) returns (step: Step)
    requires Valid(v) && !Safe(v) && !AtRest(v)
    ensures Enabled(v, step) && !Safe(Do(v, step))
  {
    if !FinalOwed(v) {
      step := AnyStep(v);
      DoomStays(v, step);
    } else if k :| 0 <= k < |v.thr.subs| && v.thr.subs[k].Cas? && v.thr.subs[k].seen != v.thr.sh.last {
      step := Task(T.Proceed(k, 0));
      HarmlessKeepsRace(v, step.task);
    } else if w :| Wins(v.thr, w) {
      step := UnsafeWinner(v);
    } else {
      forall k | 0 <= k < |v.thr.subs| ensures !v.thr.subs[k].Cas? {
        assert !Wins(v.thr, k);
      }
      step := UnsafeQuiet(v);
    }
  }

  // ---- At rest ----

  lemma SafeAtRest(v: View)
    requires Valid(v) && AtRest(v)
    ensures Safe(v) <==> exists k :: k in v.finalSubs && T.Positions(v.thr, k) != {}
  {
    T.QuietlyEmpty(v.thr);
    forall k: nat ensures OnWay(v.thr, k) <==> T.Positions(v.thr, k) != {} {
    }
    assert forall t :: !Hope(v, t);
  }
}
