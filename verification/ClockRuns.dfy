/** Runs of the clocked throttle with close stamps and with stamps that go back, and what they show over all runs. */
module ClockRuns {
  import opened Throttle
  import opened ThrottleClock
  import opened Wrappers
  import Runs

  lemma Take(c: Clocked, e: ClockStep, now: nat) returns (c': Clocked)
    requires ReachableClocked(c) && CanAt(c, e, now)
    ensures ReachableClocked(c') && c' == DoAt(c, e, now)
  {
    c' := DoAt(c, e, now);
    Runs.Extend(InitClocked, NextClocked, c, c');
  }

  predicate SameHistory(c: Clocked, c': Clocked) {
    c'.due == c.due && c'.armed == c.armed && c'.stamps == c.stamps && c'.held == c.held
  }

  /** A submission begins, finds the last send less than an interval ago, and is about to write the mailbox. */
  lemma TooSoon(c: Clocked, now: nat) returns (c': Clocked)
    requires ReachableClocked(c) && c.now <= now && SaturatingSub(now, c.st.sh.last) < THROTTLE_MS
    requires Sub(|c.st.subs|) !in c.held
    ensures ReachableClocked(c') && c'.now == now && SameHistory(c, c')
    ensures c'.st.sh == c.st.sh && c'.st.flushers == c.st.flushers && c'.st.subs == c.st.subs + [Pend]
  {
    var k := |c.st.subs|;
    c' := Take(c, Access(Submit), now);
    c' := Take(c', Read(Sub(k)), now);
    c' := Take(c', Access(Proceed(k, now)), now);
    assert c'.held == c.held;
  }

  /** A submission writes the mailbox. */
  lemma Fills(c: Clocked, k: nat) returns (c': Clocked)
    requires ReachableClocked(c) && k < |c.st.subs| && c.st.subs[k].Pend? && Sub(k) !in c.held
    ensures ReachableClocked(c') && c'.now == c.now && SameHistory(c, c')
    ensures c'.st.sh == c.st.sh.(pending := Some(k))
    ensures c'.st.subs == c.st.subs[k := Swap] && c'.st.flushers == c.st.flushers
  {
    c' := Take(c, Access(Proceed(k, 0)), c.now);
    assert c'.held == c.held;
  }

  /** It finds a flush scheduled. */
  lemma Leaves(c: Clocked, k: nat) returns (c': Clocked)
    requires ReachableClocked(c) && k < |c.st.subs| && c.st.subs[k].Swap? && c.st.sh.scheduled && Sub(k) !in c.held
    ensures ReachableClocked(c') && c'.now == c.now && SameHistory(c, c')
    ensures c'.st.sh == c.st.sh && c'.st.subs == c.st.subs[k := Returned] && c'.st.flushers == c.st.flushers
  {
    c' := Take(c, Access(Proceed(k, 0)), c.now);
    assert c'.held == c.held;
  }

  /** It finds none, and raises the flag. */
  lemma Raises(c: Clocked, k: nat) returns (c': Clocked)
    requires ReachableClocked(c) && k < |c.st.subs| && c.st.subs[k].Swap? && !c.st.sh.scheduled && Sub(k) !in c.held
    ensures ReachableClocked(c') && c'.now == c.now && SameHistory(c, c')
    ensures c'.st.sh == c.st.sh.(scheduled := true) && c'.st.subs == c.st.subs[k := Arm]
    ensures c'.st.flushers == c.st.flushers
  {
    c' := Take(c, Access(Proceed(k, 0)), c.now);
    assert c'.held == c.held;
  }

  /** Then it arms a flusher. */
  lemma Spawns(c: Clocked, k: nat) returns (c': Clocked)
    requires ReachableClocked(c) && k < |c.st.subs| && c.st.subs[k].Arm? && Sub(k) !in c.held
    ensures ReachableClocked(c') && c'.now == c.now
    ensures c'.st.sh == c.st.sh && c'.st.subs == c.st.subs[k := Returned]
    ensures
      var d := Delay(c.now, c.st.sh.last);
      && c'.st.flushers == c.st.flushers + [Sleeping(d)] && c'.due == c.due + [c.now + d]
      && c'.armed == c.armed + [|c.stamps|] && c'.stamps == c.stamps && c'.held == c.held
  {
    c' := Take(c, Read(Sub(k)), c.now);
    c' := Take(c', Access(Proceed(k, c.now)), c.now);
    assert c'.held == c.held;
  }

  /** A submission is sent on the fast path. */
  lemma SentFast(c: Clocked, now: nat) returns (c': Clocked)
    requires ReachableClocked(c) && c.now <= now && SaturatingSub(now, c.st.sh.last) >= THROTTLE_MS
    requires Sub(|c.st.subs|) !in c.held
    ensures ReachableClocked(c') && c'.now == now
    ensures c'.due == c.due && c'.armed == c.armed && c'.held == c.held && c'.stamps == c.stamps + [Fast(now)]
    ensures c'.st.sh == FastSend(c.st.sh.(last := now), |c.st.subs|, now)
    ensures c'.st.flushers == c.st.flushers && c'.st.subs == c.st.subs + [Returned]
  {
    var k := |c.st.subs|;
    c' := Take(c, Access(Submit), now);
    c' := Take(c', Read(Sub(k)), now);
    c' := Take(c', Access(Proceed(k, now)), now);
    assert c'.st.subs == c.st.subs + [Cas(now, c.st.sh.last)] && c'.held == c.held;
    c' := SentBy(c', k);
  }

  lemma SentBy(c: Clocked, k: nat) returns (c': Clocked)
    requires ReachableClocked(c) && k < |c.st.subs| && Sub(k) !in c.held
    requires c.st.subs[k].Cas? && c.st.subs[k].seen == c.st.sh.last
    ensures ReachableClocked(c') && c'.now == c.now && c'.due == c.due && c'.armed == c.armed && c'.held == c.held
    ensures
      var t := c.st.subs[k].now;
      && c'.stamps == c.stamps + [Fast(t)] && c'.st.sh == FastSend(c.st.sh.(last := t), k, t)
      && c'.st.flushers == c.st.flushers && c'.st.subs == c.st.subs[k := Returned]
  {
    c' := Take(c, Access(Proceed(k, 0)), c.now);
    assert c'.held == c.held && c'.st.subs[k].Send?;
    c' := Take(c', Access(Proceed(k, 0)), c.now);
    assert c'.held == c.held;
  }

  /** A flusher wakes up and resets the flag. */
  lemma Wakes(c: Clocked, f: nat, now: nat) returns (c': Clocked)
    requires ReachableClocked(c) && f < |c.st.flushers| && c.st.flushers[f].Sleeping? && Flusher(f) !in c.held
    requires f < |c.due| && c.due[f] <= now && c.now <= now
    ensures ReachableClocked(c') && c'.now == now && SameHistory(c, c')
    ensures c'.st.sh == c.st.sh.(scheduled := false) && c'.st.subs == c.st.subs
    ensures c'.st.flushers == c.st.flushers[f := Taking]
  {
    c' := Take(c, Access(Flush(f, 0)), now);
    assert c'.held == c.held;
  }

  /** It takes what waits in the mailbox and reads the clock. */
  lemma TakesAndReads(c: Clocked, f: nat) returns (c': Clocked)
    requires ReachableClocked(c) && f < |c.st.flushers| && c.st.flushers[f].Taking? && Flusher(f) !in c.held
    requires c.st.sh.pending.Some?
    ensures ReachableClocked(c') && c'.now == c.now && c'.due == c.due && c'.armed == c.armed && c'.stamps == c.stamps
    ensures c'.held == c.held[Flusher(f) := Reading(c.now, |c.stamps|)]
    ensures c'.st.sh == c.st.sh.(pending := None) && c'.st.subs == c.st.subs
    ensures c'.st.flushers == c.st.flushers[f := Stamping(c.st.sh.pending.value)]
  {
    c' := Take(c, Access(Flush(f, 0)), c.now);
    assert c'.held == c.held;
    c' := Take(c', Read(Flusher(f)), c.now);
  }

  /** It stores its reading, now or later, and sends. */
  lemma Stores(c: Clocked, f: nat, now: nat) returns (c': Clocked)
    requires ReachableClocked(c) && f < |c.st.flushers| && c.st.flushers[f].Stamping? && Flusher(f) in c.held
    requires c.now <= now
    ensures ReachableClocked(c') && c'.now == now && c'.due == c.due && c'.armed == c.armed
    ensures c'.held == c.held - {Flusher(f)}
    ensures
      var r, id := c.held[Flusher(f)], c.st.flushers[f].id;
      && c'.stamps == c.stamps + [Flushed(r.at, f, r.stamps)]
      && c'.st.sh == c.st.sh.(last := r.at, chan := c.st.sh.chan + [Entry(id, true, r.at, false)])
    ensures c'.st.subs == c.st.subs && c'.st.flushers == c.st.flushers[f := Done]
  {
    var t := c.held[Flusher(f)].at;
    c' := Take(c, Access(Flush(f, t)), now);
    assert c'.st.flushers[f].Sending? && c'.held == c.held - {Flusher(f)};
    c' := Take(c', Access(Flush(f, 0)), now);
    assert c'.held == c.held - {Flusher(f)};
  }

  lemma FirstSent() returns (c: Clocked)
    ensures ReachableClocked(c) && c.now == 1000 && c.due == [] && c.armed == [] && c.held == map[]
    ensures c.st.sh == Shared(1000, None, false, [Entry(0, false, 1000, false)]) && c.stamps == [Fast(1000)]
    ensures c.st.subs == [Returned] && c.st.flushers == []
  {
    c := Clocked(State(EMPTY, [], [], map[], []), 1000, [], [], [], map[]);
    Runs.Start(InitClocked, NextClocked, c);
    c := SentFast(c, 1000);
  }

  /** A fast send at 1000 ms; a submission at `now` waits for the flusher it armed. */
  lemma OneFlusher(now: nat) returns (c: Clocked)
    requires 1000 <= now < 1050
    ensures ReachableClocked(c) && c.now == now && c.due == [1050] && c.armed == [1] && c.held == map[]
    ensures c.st.sh == Shared(1000, Some(1), true, [Entry(0, false, 1000, false)]) && c.stamps == [Fast(1000)]
    ensures |c.st.subs| == 2 && c.st.flushers == [Sleeping(1050 - now)]
  {
    c := FirstSent();
    c := TooSoon(c, now);
    c := Fills(c, 1);
    c := Raises(c, 1);
    c := Spawns(c, 1);
  }

  /** At 1050 ms a third submission gets between the flusher's reset of the flag and its take: its snapshot is taken,
      and the flusher it spawned is due already at 1051 ms. */
  lemma TwoFlushers() returns (c: Clocked)
    ensures ReachableClocked(c) && c.now == 1050 && c.due == [1050, 1051] && c.armed == [1, 1] && c.held == map[]
    ensures c.stamps == [Fast(1000), Flushed(1050, 0, 1)]
    ensures c.st.sh == Shared(1050, None, true, [Entry(0, false, 1000, false), Entry(2, true, 1050, false)])
    ensures |c.st.subs| == 3 && c.st.flushers == [Done, Sleeping(1)]
  {
    c := OneFlusher(1040);
    c := TooSoon(c, 1049);
    c := Wakes(c, 0, 1050);
    c := Fills(c, 2);
    c := Raises(c, 2);
    c := Spawns(c, 2);
    c := TakesAndReads(c, 0);
    c := Stores(c, 0, 1050);
  }

  /** Two flushes one millisecond apart, although no fast send overtook anything. */
  lemma FlushesTooClose() returns (c: Clocked)
    ensures ReachableClocked(c) && c.armed == [1, 1]
    ensures c.stamps == [Fast(1000), Flushed(1050, 0, 1), Flushed(1051, 1, 2)]
    ensures c.st.sh.chan == [Entry(0, false, 1000, false), Entry(2, true, 1050, false), Entry(3, true, 1051, false)]
  {
    c := TwoFlushers();
    c := TooSoon(c, 1050);
    c := Fills(c, 3);
    c := Leaves(c, 3);
    c := Wakes(c, 1, 1051);
    c := TakesAndReads(c, 1);
    c := Stores(c, 1, 1051);
  }

  /** A flusher has read 1050 ms and is held up; meanwhile a submission is sent at 1060 ms. */
  lemma HeldUp() returns (c: Clocked)
    ensures ReachableClocked(c) && c.now == 1060 && c.armed == [1] && c.stamps == [Fast(1000), Fast(1060)]
    ensures c.held == map[Flusher(0) := Reading(1050, 1)]
    ensures c.st.sh == Shared(1060, None, false, [Entry(0, false, 1000, false), Entry(2, false, 1060, false)])
    ensures |c.st.subs| == 3 && c.st.flushers == [Stamping(1)]
  {
    c := OneFlusher(1010);
    c := Wakes(c, 0, 1050);
    c := TakesAndReads(c, 0);
    c := SentFast(c, 1060);
  }

  /** Then the flusher stores its reading, and the next submission is sent at 1100 ms: the time of the last send went
      back, and two fast sends are 40 ms apart. */
  lemma StampGoesBack() returns (c: Clocked)
    ensures ReachableClocked(c) && c.armed == [1]
    ensures c.stamps == [Fast(1000), Fast(1060), Flushed(1050, 0, 1), Fast(1100)]
    ensures c.st.sh.chan == [Entry(0, false, 1000, false), Entry(2, false, 1060, false),
                             Entry(1, true, 1050, false), Entry(3, false, 1100, false)]
  {
    c := HeldUp();
    c := Stores(c, 0, 1061);
    c := SentFast(c, 1100);
  }

  // ---- Over all runs ----

  /** Neighbouring stamps can be less than 50 ms apart if and only if the later is that of a flusher armed before the
      earlier. */
  lemma CloseStampsIff(kind: Kind)
    ensures CanBeClose(kind) <==> kind == ReadSince || kind == ReadBefore
  {
    if kind == ReadSince {
      var c := FlushesTooClose();
      assert TooClose(c, 2) && KindOf(c, 2) == ReadSince;
    } else if kind == ReadBefore {
      var c := StampGoesBack();
      assert TooClose(c, 2) && KindOf(c, 2) == ReadBefore;
    } else if CanBeClose(kind) {
      var c, i: nat :| ReachableClocked(c) && TooClose(c, i) && KindOf(c, i) == kind;
      StampSpacing(c, i);
    }
  }

  /** In every run: a stamp that is close to the one before it is that of a flusher armed before that one, and one that
      goes back is that of a flusher that had read the clock before it. */
  lemma CloseStamp(c: Clocked, i: nat)
    requires ReachableClocked(c) && TooClose(c, i)
    ensures c.stamps[i].Flushed? && c.stamps[i].f < |c.armed| && c.armed[c.stamps[i].f] < i
    ensures GoesBack(c, i) ==> c.stamps[i].read < i
  {
    StampSpacing(c, i);
  }

  /** Stamps of every kind occur. */
  lemma KindsOccur(kind: Kind) returns (c: Clocked, i: nat)
    ensures ReachableClocked(c) && i < |c.stamps| && KindOf(c, i) == kind
  {
    match kind
    case ByWinner =>
      c := FlushesTooClose();
      i := 0;
    case ArmedSince =>
      c := FlushesTooClose();
      i := 1;
    case ReadSince =>
      c := FlushesTooClose();
      i := 2;
    case ReadBefore =>
      c := StampGoesBack();
      i := 2;
  }

  /** A stamp can be earlier than the one it replaces if and only if it is that of a flusher that read the clock before
      the replaced stamp was written. */
  lemma StampsGoBackIff(kind: Kind)
    ensures CanGoBack(kind) <==> kind == ReadBefore
  {
    if kind == ReadBefore {
      var c := StampGoesBack();
      assert GoesBack(c, 2) && KindOf(c, 2) == ReadBefore;
    } else if CanGoBack(kind) {
      var c, i: nat :| ReachableClocked(c) && GoesBack(c, i) && KindOf(c, i) == kind;
      StampSpacing(c, i);
    }
  }

  /** Two fast stamps, neighbours or not, can be less than 50 ms apart if and only if a stamp between them goes back.
      */
  lemma FastStampsCloseIff(back: bool)
    ensures FastCanBeClose(back) <==> back
  {
    if back {
      var c := StampGoesBack();
      assert GoesBack(c, 2);
      assert FastPairTooClose(c, 1, 3) && BackBetween(c, 1, 3);
    } else if FastCanBeClose(back) {
      var c, i: nat, j: nat :| ReachableClocked(c) && FastPairTooClose(c, i, j) && BackBetween(c, i, j) == back;
      FastPairApart(c, i, j);
    }
  }
}
