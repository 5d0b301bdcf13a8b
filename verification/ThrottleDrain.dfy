/**
 What happens to the throttled broadcast once no new submission arrives: every schedule finishes, and the
 exact condition under which the latest snapshot is also the last one on the channel.
 */
module ThrottleDrain {
  import opened Sets
  import opened Wrappers
  import opened Throttle
  import Runs

  // ---- Every schedule finishes ----

  /** Steps a task still has to take, including those of the flusher it may spawn. */
  function SubWork(pc: SubPc): nat {
    match pc
    case Start => 9
    case Cas(_, _) => 8
    case Pend => 7
    case Swap => 6
    case Arm => 5
    case Send(_) => 1
    case Returned => 0
  }

  function FlushWork(pc: FlushPc): nat {
    match pc
    case Sleeping(_) => 4
    case Taking => 3
    case Stamping(_) => 2
    case Sending(_, _) => 1
    case Done => 0
  }

  function SubsWork(subs: seq<SubPc>): nat {
    if subs == [] then 0 else SubsWork(subs[..|subs| - 1]) + SubWork(subs[|subs| - 1])
  }

  function FlushersWork(fs: seq<FlushPc>): nat {
    if fs == [] then 0 else FlushersWork(fs[..|fs| - 1]) + FlushWork(fs[|fs| - 1])
  }

  function Work(s: State): nat {
    SubsWork(s.subs) + FlushersWork(s.flushers)
  }

  lemma {:induction false} SubsWorkUpdate(subs: seq<SubPc>, k: nat, pc: SubPc)
    requires k < |subs|
    ensures SubsWork(subs[k := pc]) == SubsWork(subs) - SubWork(subs[k]) + SubWork(pc)
    decreases |subs|
  {
    var front := subs[..|subs| - 1];
    if k == |subs| - 1 {
      assert subs[k := pc][..|subs| - 1] == front;
    } else {
      SubsWorkUpdate(front, k, pc);
      assert subs[k := pc][..|subs| - 1] == front[k := pc];
    }
  }

  lemma {:induction false} FlushersWorkUpdate(fs: seq<FlushPc>, f: nat, pc: FlushPc)
    requires f < |fs|
    ensures FlushersWork(fs[f := pc]) == FlushersWork(fs) - FlushWork(fs[f]) + FlushWork(pc)
    decreases |fs|
  {
    var front := fs[..|fs| - 1];
    if f == |fs| - 1 {
      assert fs[f := pc][..|fs| - 1] == front;
    } else {
      FlushersWorkUpdate(front, f, pc);
      assert fs[f := pc][..|fs| - 1] == front[f := pc];
    }
  }

  /** Every step of an existing task brings the protocol closer to its end, so without new submissions
      no schedule goes on for ever, and in particular every armed flush happens. */
  lemma StepsRunOut(s: State, step: Step)
    requires Enabled(s, step) && !step.Submit?
    ensures Work(Do(s, step)) < Work(s)
  {
    match step
    case Proceed(k, now) =>
      var pc := Do(s, step).subs[k];
      assert Do(s, step).subs == s.subs[k := pc];
      SubsWorkUpdate(s.subs, k, pc);
      if s.subs[k].Arm? {
        var d := Sleeping(Delay(now, s.sh.last));
        assert (s.flushers + [d])[..|s.flushers|] == s.flushers;
      }
    case Flush(f, now) =>
      var pc := Do(s, step).flushers[f];
      assert Do(s, step).flushers == s.flushers[f := pc];
      FlushersWorkUpdate(s.flushers, f, pc);
  }

  /** Nothing is left but the flusher that is kept waiting, if any. */
  ghost predicate OnlyLeft(s: State, keep: Option<nat>) {
    && (forall k :: 0 <= k < |s.subs| ==> s.subs[k].Returned?)
    && (forall g :: 0 <= g < |s.flushers| && keep != Some(g) ==> s.flushers[g].Done?)
  }

  /** From every state some schedule without new submissions finishes all tasks, except for a flusher
      that the schedule may keep waiting for as long as it likes. */
  lemma {:induction false} Drain(s0: State, s: State, keep: Option<nat>) returns (s': State)
    requires Runs.Leads(Quiet, s0, s)
    requires keep.Some? ==> keep.value < |s.flushers|
    ensures Runs.Leads(Quiet, s0, s') && OnlyLeft(s', keep)
    ensures keep.Some? ==> keep.value < |s'.flushers| && s'.flushers[keep.value] == s.flushers[keep.value]
    decreases Work(s)
  {
    if OnlyLeft(s, keep) {
      s' := s;
    } else {
      var step: Step;
      if k :| 0 <= k < |s.subs| && !s.subs[k].Returned? {
        step := Proceed(k, 0);
      } else {
        var g :| 0 <= g < |s.flushers| && keep != Some(g) && !s.flushers[g].Done?;
        step := Flush(g, 0);
      }
      StepsRunOut(s, step);
      var s1 := Do(s, step);
      Runs.LeadsOn(Quiet, s0, s, s1);
      s' := Drain(s0, s1, keep);
    }
  }

  // ---- Is the latest snapshot the last one sent? ----

  /** Submission `k` still has to reach the channel. */
  ghost predicate Owed(s: State, k: nat) {
    s.sh.pending == Some(k) || Carriers(s, k) != {}
  }

  predicate LastSent(s: State, k: nat) {
    s.sh.chan != [] && s.sh.chan[|s.sh.chan| - 1].id == k
  }

  /** Every submission has taken effect, `k` as the last of them. */
  ghost predicate Settled(s: State, k: nat) {
    && Inv(s)
    && (forall j :: !InFlight(s, j))
    && s.order != [] && s.order[|s.order| - 1] == k
  }

  /** No other snapshot still has to be sent, and `k` either does or is the last one on the channel. */
  ghost predicate NothingOlderOwed(s: State, k: nat) {
    && (forall j: nat :: Owed(s, j) ==> j == k)
    && (Owed(s, k) || LastSent(s, k))
  }

  /** However the remaining tasks are scheduled, `k` ends up as the last snapshot on the channel. */
  ghost predicate SureToBeLast(s: State, k: nat) {
    forall s' :: Runs.Leads(Quiet, s, s') && Quiescent(s') ==> LastSent(s', k)
  }

  lemma SettledStep(s: State, step: Step, k: nat)
    requires Settled(s, k) && Enabled(s, step) && !step.Submit?
    ensures Settled(Do(s, step), k)
    ensures s.sh.chan <= Do(s, step).sh.chan
  {
    InvStep(s, step);
    if step.Proceed? {
      assert !InFlight(s, step.k);
    }
    forall j ensures !InFlight(Do(s, step), j) {
      assert !InFlight(s, j);
    }
  }

  lemma OwedElsewhere(s: State, k: nat)
    requires Accounted(s) && Owed(s, k)
    ensures Positions(s, k) == {} && (s.sh.pending == Some(k) ==> Carriers(s, k) == {})
  {
    assert Places(s, k) == Bit(k < |s.subs|);
  }

  /** Once nothing older is owed, nothing older is owed ever after. */
  lemma NothingOlderKept(s: State, step: Step, k: nat)
    requires Settled(s, k) && NothingOlderOwed(s, k) && Enabled(s, step) && !step.Submit?
    ensures NothingOlderOwed(Do(s, step), k)
  {
    var s' := Do(s, step);
    if step.Proceed? {
      assert !InFlight(s, step.k);
      forall j: nat ensures Owed(s', j) <==> Owed(s, j) {
        assert Carriers(s', j) == Carriers(s, j);
      }
    } else {
      var f := step.f;
      var pc := s.flushers[f];
      forall j: nat | Owed(s', j) ensures j == k && Owed(s, j) {
        if g :| g in Carriers(s', j) {
          if g != f {
            assert g in Carriers(s, j);
          } else if !pc.Taking? {
            assert f in Carriers(s, j);
          }
        }
        assert Owed(s, j);
      }
      if pc.Taking? && s.sh.pending.Some? {
        assert Owed(s, s.sh.pending.value);
        assert f in Carriers(s', k);
      } else if pc.Stamping? {
        assert f in Carriers(s, pc.id) && Owed(s, pc.id);
        assert f in Carriers(s', k);
      } else if pc.Sending? {
        assert f in Carriers(s, pc.id) && Owed(s, pc.id);
      } else if Owed(s, k) && s.sh.pending != Some(k) {
        var g :| g in Carriers(s, k);
        assert g in Carriers(s', k);
      }
    }
  }

  lemma SureIfNothingOlder(s: State, k: nat, s': State)
    requires Settled(s, k) && NothingOlderOwed(s, k) && Runs.Leads(Quiet, s, s') && Quiescent(s')
    ensures LastSent(s', k)
  {
    var good := t => Settled(t, k) && NothingOlderOwed(t, k);
    forall s0, s1 | good(s0) && Quiet(s0, s1) ensures good(s1) {
      var step: Step :| !step.Submit? && Enabled(s0, step) && s1 == Do(s0, step);
      SettledStep(s0, step, k);
      NothingOlderKept(s0, step, k);
    }
    Runs.AlwaysFrom(Quiet, good, s, s');
    QuietlyEmpty(s');
    assert Carriers(s', k) == {};
  }

  lemma SettledAlong(s: State, k: nat, s': State)
    requires Settled(s, k) && Runs.Leads(Quiet, s, s')
    ensures Settled(s', k) && s.sh.chan <= s'.sh.chan
  {
    var good := t => Settled(t, k) && s.sh.chan <= t.sh.chan;
    forall s0, s1 | good(s0) && Quiet(s0, s1) ensures good(s1) {
      var step: Step :| !step.Submit? && Enabled(s0, step) && s1 == Do(s0, step);
      SettledStep(s0, step, k);
    }
    Runs.AlwaysFrom(Quiet, good, s, s');
  }

  /** The last entry of a channel that has grown since `k` was sent is not `k`. */
  lemma SentEarlier(s: State, s': State, k: nat)
    requires Accounted(s') && s.sh.chan < s'.sh.chan && Positions(s, k) != {}
    ensures !LastSent(s', k)
  {
    var i :| i in Positions(s, k);
    var last := |s'.sh.chan| - 1;
    assert Places(s', k) == Bit(k < |s'.subs|) && i in Positions(s', k);
    if last in Positions(s', k) {
      SubsetSize({i, last}, Positions(s', k));
    }
  }

  /** Everything that is owed reaches the channel later than what is there already. */
  lemma OwedComesLater(s: State, k: nat, j: nat, s': State)
    requires Settled(s, k) && Owed(s, j) && Runs.Leads(Quiet, s, s') && Quiescent(s')
    ensures s.sh.chan < s'.sh.chan
  {
    SettledAlong(s, k, s');
    OwedElsewhere(s, j);
    QuietlyEmpty(s');
    OwedNotLost(s, k, j, s');
    assert Positions(s', j) != {} by {
      assert Places(s, j) == Bit(j < |s.subs|);
      assert |Positions(s', j)| + Bit(j in s'.lost) == 1;
    }
    assert s'.sh.chan == s.sh.chan ==> Positions(s', j) == Positions(s, j);
  }

  /** Without new submissions nothing is replaced any more. */
  lemma OwedNotLost(s: State, k: nat, j: nat, s': State)
    requires Settled(s, k) && Owed(s, j) && Runs.Leads(Quiet, s, s')
    ensures j !in s'.lost && |s'.subs| == |s.subs|
  {
    assert Places(s, j) == Bit(j < |s.subs|);
    var good := t => Settled(t, k) && t.lost == s.lost && |t.subs| == |s.subs|;
    forall s0, s1 | good(s0) && Quiet(s0, s1) ensures good(s1) {
      var step: Step :| !step.Submit? && Enabled(s0, step) && s1 == Do(s0, step);
      SettledStep(s0, step, k);
      LostStays(s0, step);
    }
    Runs.AlwaysFrom(Quiet, good, s, s');
  }

  lemma LostStays(s: State, step: Step)
    requires (forall j :: !InFlight(s, j)) && Enabled(s, step) && !step.Submit?
    ensures Do(s, step).lost == s.lost && |Do(s, step).subs| == |s.subs|
  {
    assert step.Proceed? ==> !InFlight(s, step.k);
  }

  /** With nothing owed the channel does not change any more. */
  lemma NothingOwedKept(s: State, k: nat, s': State)
    requires Settled(s, k) && (forall j: nat :: !Owed(s, j)) && Runs.Leads(Quiet, s, s')
    ensures s'.sh.chan == s.sh.chan
  {
    var good := t => Settled(t, k) && (forall j: nat :: !Owed(t, j)) && t.sh.chan == s.sh.chan;
    forall s0, s1 | good(s0) && Quiet(s0, s1) ensures good(s1) {
      var step: Step :| !step.Submit? && Enabled(s0, step) && s1 == Do(s0, step);
      SettledStep(s0, step, k);
      NothingOwedStep(s0, step);
    }
    Runs.AlwaysFrom(Quiet, good, s, s');
  }

  lemma NothingOwedStep(s: State, step: Step)
    requires (forall j: nat :: !Owed(s, j)) && (forall j :: !InFlight(s, j)) && Enabled(s, step) && !step.Submit?
    ensures (forall j: nat :: !Owed(Do(s, step), j)) && Do(s, step).sh.chan == s.sh.chan
  {
    var s' := Do(s, step);
    assert step.Proceed? ==> !InFlight(s, step.k);
    assert s.sh.pending == None by {
      assert s.sh.pending.Some? ==> Owed(s, s.sh.pending.value);
    }
    if step.Flush? {
      var pc := s.flushers[step.f];
      assert (pc.Stamping? || pc.Sending?) ==> step.f in Carriers(s, pc.id) && Owed(s, pc.id);
    }
    forall j: nat ensures !Owed(s', j) {
      assert !Owed(s, j) && Carriers(s', j) == Carriers(s, j);
    }
  }

  /** A flusher that still holds an older snapshot can be the last one to send. */
  lemma KeptFlusherSendsLast(s: State, k: nat, j: nat, f: nat) returns (s': State)
    requires Settled(s, k) && j != k && f in Carriers(s, j)
    ensures Runs.Leads(Quiet, s, s') && Quiescent(s') && !LastSent(s', k)
  {
    Runs.Stay(Quiet, s);
    s' := Drain(s, s, Some(f));
    while !Quiescent(s')
      invariant Runs.Leads(Quiet, s, s') && OnlyLeft(s', Some(f)) && f < |s'.flushers|
      invariant Carries(s'.flushers[f], j) || (s'.flushers[f].Done? && LastSent(s', j))
      decreases FlushWork(s'.flushers[f])
    {
      var s1 := Do(s', Flush(f, 0));
      assert Enabled(s', Flush(f, 0));
      Runs.LeadsOn(Quiet, s, s', s1);
      s' := s1;
    }
  }

  /** The exact condition under which the latest snapshot ends up as the last one on the channel whatever the
      schedule: nothing older is owed any more, and the latest one is owed or was the last one sent. */
  lemma LatestIsLastIff(s: State, k: nat)
    requires Reachable(s) && (forall j :: !InFlight(s, j))
    requires s.order != [] && s.order[|s.order| - 1] == k
    ensures SureToBeLast(s, k) <==> NothingOlderOwed(s, k)
  {
    ReachableInv(s);
    if NothingOlderOwed(s, k) {
      forall s' | Runs.Leads(Quiet, s, s') && Quiescent(s') ensures LastSent(s', k) {
        SureIfNothingOlder(s, k, s');
      }
    } else {
      var s' := OlderCanBeLast(s, k);
    }
  }

  lemma OlderCanBeLast(s: State, k: nat) returns (s': State)
    requires Settled(s, k) && !NothingOlderOwed(s, k)
    ensures Runs.Leads(Quiet, s, s') && Quiescent(s') && !LastSent(s', k)
  {
    Runs.Stay(Quiet, s);
    if j: nat :| Owed(s, j) && j != k {
      if f :| f in Carriers(s, j) {
        s' := KeptFlusherSendsLast(s, k, j, f);
      } else {
        s' := Drain(s, s, None);
        assert Quiescent(s');
        OwedComesLater(s, k, j, s');
        SettledAlong(s, k, s');
        SentEarlier(s, s', k);
      }
    } else {
      s' := Drain(s, s, None);
      assert Quiescent(s');
      assert forall j: nat :: !Owed(s, j);
      NothingOwedKept(s, k, s');
    }
  }
}
