/** The shared vote board: four counters updated in place. */
module VoteBoard {
  import opened Sets
  import opened Wrappers
  import P = VoteProtocol

  const N_OPTIONS := P.N_OPTIONS

  /** What `Vote(prev, next)` adds to the counter of option `o`. */
  function VoteDelta(prev: Option<nat>, next: nat, o: nat): int {
    Bit(o == next) - Bit(prev == Some(o))
  }

  class VoteBoard {
    const counts: array<int>

    constructor ()
      ensures fresh(counts) && counts[..] == [0, 0, 0, 0]
    {
      counts := new int[4](_ => 0);
    }

    /** Adds the new choice, then takes back the previous one; options out of range touch nothing. */
    method Vote(prev: Option<nat>, next: nat)
      requires counts.Length == N_OPTIONS
      modifies counts
      ensures forall o :: 0 <= o < N_OPTIONS ==> counts[o] == old(counts[o]) + VoteDelta(prev, next, o)
    {
      if next < N_OPTIONS {
        counts[next] := counts[next] + 1;
      }
      if prev.Some? {
        var p := prev.value;
        if p < N_OPTIONS {
          counts[p] := counts[p] - 1;
        }
      }
    }

    method Unvote(prev: nat)
      requires counts.Length == N_OPTIONS
      modifies counts
      ensures forall o :: 0 <= o < N_OPTIONS ==> counts[o] == old(counts[o]) - Bit(o == prev)
    {
      if prev < N_OPTIONS {
        counts[prev] := counts[prev] - 1;
      }
    }

    /** Loads the counters one after the other, clamping each at zero. */
    method Snapshot() returns (snap: seq<int>)
      requires counts.Length == N_OPTIONS
      ensures |snap| == N_OPTIONS
      ensures forall o :: 0 <= o < N_OPTIONS ==> snap[o] == if counts[o] < 0 then 0 else counts[o]
    {
      snap := [];
      for i := 0 to N_OPTIONS
        invariant |snap| == i
        invariant forall o :: 0 <= o < i ==> snap[o] == if counts[o] < 0 then 0 else counts[o]
      {
        var v := counts[i];
        snap := snap + [if v < 0 then 0 else v];
      }
    }
  }

  /** Steps a connection still has to take until its snapshot is complete. */
  function ToSnapshot(pc: P.Pc): nat {
    match pc
    case Increment(_) => 7
    case Decrement(_) => 6
    case Assign(_) => 5
    case Remove(_, _) => 5
    case Reading(got, _, _) => if |got| < N_OPTIONS then N_OPTIONS - |got| else 0
    case _ => 0
  }

  /** The state after connection `c` ran alone until its snapshot was complete. */
  function Alone(s: P.State, c: nat): P.State
    requires c in s.clients
    decreases ToSnapshot(s.clients[c].pc)
  {
    if P.Enabled(s, P.Advance(c)) && !s.clients[c].pc.Submitting? then Alone(P.AdvanceClient(s, c), c) else s
  }

  /** A connection that casts a vote and is not interrupted before its snapshot is complete changes the counters by
      `VoteDelta` and reports exactly the new counters: the protocol, taken without interleaving, is the board's `Vote`
      followed by `Snapshot`. */
  lemma UninterruptedVote(s: P.State, c: nat, next: nat)
    requires P.Reachable(s) && |s.counts| == N_OPTIONS && c in s.clients && s.clients[c].pc.Idle?
    ensures
      var s' := Alone(P.Do(s, P.Begin(c, P.CastVote(next))), c);
      && |s'.counts| == N_OPTIONS
      && (forall o :: 0 <= o < N_OPTIONS ==> s'.counts[o] == s.counts[o] + VoteDelta(s.clients[c].vote, next, o))
      && s'.clients == s.clients[c := P.Client(Some(next), P.Submitting(s'.counts, s'.adds, false))]
  {
    P.ReachableInv(s);
    HeldCounts(s, c);
    AloneVote(s, c, next);
    AloneRest(s, c, next);
  }

  lemma AloneRest(s: P.State, c: nat, next: nat)
    requires |s.counts| == N_OPTIONS && c in s.clients
    requires forall o :: 0 <= o < N_OPTIONS ==>
      0 <= s.counts[o] && (s.clients[c].vote == Some(o) ==> 1 <= s.counts[o])
    ensures
      var s' := Alone(VotedBy(s, c, next), c);
      && |s'.counts| == N_OPTIONS
      && (forall o :: 0 <= o < N_OPTIONS ==> s'.counts[o] == s.counts[o] + VoteDelta(s.clients[c].vote, next, o))
      && s'.clients == s.clients[c := P.Client(Some(next), P.Submitting(s'.counts, s'.adds, false))]
  {
    var s' := VotedBy(s, c, next);
    VotedCounts(s, c, next);
    SnapshotOf(s', c, P.Client(Some(next), P.Reading([], s'.adds, false)));
  }

  /** The decrement of a withdrawal or a clean-up done, and the snapshot about to begin. */
  function TakenBack(s: P.State, c: nat, o: nat, vote: Option<nat>, closing: bool): P.State
    requires |s.counts| == N_OPTIONS
  {
    var s' := P.Add(s, o, -1);
    P.Put(s', c, P.Client(vote, P.Reading([], s'.adds, closing)))
  }

  lemma TakenBackCounts(s: P.State, c: nat, o: nat, vote: Option<nat>, closing: bool)
    requires |s.counts| == N_OPTIONS
    ensures
      var s' := TakenBack(s, c, o, vote, closing);
      && |s'.counts| == N_OPTIONS
      && (forall i :: 0 <= i < N_OPTIONS ==> s'.counts[i] == s.counts[i] - Bit(i == o))
      && s'.clients == s.clients[c := P.Client(vote, P.Reading([], s'.adds, closing))]
  {
  }

  lemma TakenBackNext(s: P.State, c: nat, o: nat, vote: Option<nat>, closing: bool)
    requires |s.counts| == N_OPTIONS
    ensures
      Alone(P.Put(s, c, P.Client(vote, P.Remove(o, closing))), c) == Alone(TakenBack(s, c, o, vote, closing), c)
  {
    var s1 := P.Put(s, c, P.Client(vote, P.Remove(o, closing)));
    assert P.AdvanceClient(s1, c) == TakenBack(s, c, o, vote, closing);
  }

  lemma TakenBackAlone(s: P.State, c: nat, o: nat, vote: Option<nat>, closing: bool)
    requires |s.counts| == N_OPTIONS && c in s.clients
    requires forall i :: 0 <= i < N_OPTIONS ==> Bit(i == o) <= s.counts[i]
    ensures
      var s' := Alone(P.Put(s, c, P.Client(vote, P.Remove(o, closing))), c);
      && |s'.counts| == N_OPTIONS
      && (forall i :: 0 <= i < N_OPTIONS ==> s'.counts[i] == s.counts[i] - Bit(i == o))
      && s'.clients == s.clients[c := P.Client(vote, P.Submitting(s'.counts, s'.adds, closing))]
  {
    var s' := TakenBack(s, c, o, vote, closing);
    TakenBackNext(s, c, o, vote, closing);
    TakenBackCounts(s, c, o, vote, closing);
    SnapshotOf(s', c, P.Client(vote, P.Reading([], s'.adds, closing)));
  }

  /** A connection that withdraws its vote and is not interrupted takes one off that option, has no vote any more, and
      reports exactly the new counters: the board's `Unvote` followed by `Snapshot`. */
  lemma UninterruptedWithdraw(s: P.State, c: nat, o: nat)
    requires P.Reachable(s) && |s.counts| == N_OPTIONS
    requires c in s.clients && s.clients[c] == P.Client(Some(o), P.Idle)
    ensures P.Enabled(s, P.Begin(c, P.Withdraw))
    ensures
      var s' := Alone(P.Do(s, P.Begin(c, P.Withdraw)), c);
      && |s'.counts| == N_OPTIONS
      && (forall i :: 0 <= i < N_OPTIONS ==> s'.counts[i] == s.counts[i] - Bit(i == o))
      && s'.clients == s.clients[c := P.Client(None, P.Submitting(s'.counts, s'.adds, false))]
  {
    P.ReachableInv(s);
    HeldCounts(s, c);
    TakenBackAlone(s, c, o, None, false);
    assert P.Do(s, P.Begin(c, P.Withdraw)) == P.Put(s, c, P.Client(None, P.Remove(o, false)));
  }

  /** A connection that ends, with a vote, and is not interrupted takes its vote back and reports the new counters once
      more before it is gone; without a vote it is gone at once, and nothing changes. */
  lemma UninterruptedHangup(s: P.State, c: nat)
    requires P.Reachable(s) && |s.counts| == N_OPTIONS && c in s.clients && s.clients[c].pc.Idle?
    ensures P.Enabled(s, P.Begin(c, P.Hangup))
    ensures
      var vote := s.clients[c].vote;
      var s' := Alone(P.Do(s, P.Begin(c, P.Hangup)), c);
      && |s'.counts| == N_OPTIONS
      && (forall i :: 0 <= i < N_OPTIONS ==> s'.counts[i] == s.counts[i] - Bit(vote == Some(i)))
      && s'.clients == s.clients[c := P.Client(vote,
           if vote.Some? then P.Submitting(s'.counts, s'.adds, true) else P.Gone)]
      && (vote.None? ==> s'.counts == s.counts)
  {
    P.ReachableInv(s);
    HeldCounts(s, c);
    var vote := s.clients[c].vote;
    if vote.Some? {
      TakenBackAlone(s, c, vote.value, vote, true);
      assert P.Do(s, P.Begin(c, P.Hangup)) == P.Put(s, c, P.Client(vote, P.Remove(vote.value, true)));
    }
  }

  /** After its submission a connection is back at its loop, or gone if it was closing. */
  lemma SubmittedGoesOn(s: P.State, c: nat, snap: seq<int>, since: nat, closing: bool)
    requires |s.counts| == N_OPTIONS && c in s.clients && s.clients[c].pc == P.Submitting(snap, since, closing)
    ensures P.Enabled(s, P.Advance(c))
    ensures P.Do(s, P.Advance(c)) ==
            s.(clients := s.clients[c := P.Client(s.clients[c].vote, if closing then P.Gone else P.Idle)])
  {
  }

  /** A connection about to load its first counter ends up with all four. */
  lemma SnapshotOf(s: P.State, c: nat, cl: P.Client)
    requires |s.counts| == N_OPTIONS && forall o :: 0 <= o < N_OPTIONS ==> 0 <= s.counts[o]
    requires c in s.clients && s.clients[c] == cl && cl.pc.Reading? && cl.pc.got == []
    ensures Alone(s, c) == P.Put(s, c, cl.(pc := P.Submitting(s.counts, cl.pc.since, cl.pc.closing)))
  {
    AloneSnapshot(s, c);
    assert [] + s.counts[0..] == s.counts;
  }

  lemma VotedCounts(s: P.State, c: nat, next: nat)
    requires |s.counts| == N_OPTIONS && c in s.clients
    ensures |VotedBy(s, c, next).counts| == N_OPTIONS
    ensures forall o :: 0 <= o < N_OPTIONS ==>
      VotedBy(s, c, next).counts[o] == s.counts[o] + VoteDelta(s.clients[c].vote, next, o)
  {
  }

  lemma HeldCounts(s: P.State, c: nat)
    requires P.CountersAgree(s) && c in s.clients && s.clients[c].pc.Idle?
    ensures forall o :: 0 <= o < N_OPTIONS ==>
      0 <= s.counts[o] && (s.clients[c].vote == Some(o) ==> 1 <= s.counts[o])
  {
    forall o | 0 <= o < N_OPTIONS && s.clients[c].vote == Some(o) ensures 1 <= s.counts[o] {
      assert c in P.Holders(s.clients, o);
    }
  }

  /** Both `fetch_add`s done, the new vote assigned, and the snapshot about to begin. */
  function VotedBy(s: P.State, c: nat, next: nat): P.State
    requires |s.counts| == N_OPTIONS && c in s.clients
  {
    var s' := P.AddOptional(P.Add(s, next, 1), s.clients[c].vote, -1);
    P.Put(s', c, P.Client(Some(next), P.Reading([], s'.adds, false)))
  }

  lemma AloneVote(s: P.State, c: nat, next: nat)
    requires |s.counts| == N_OPTIONS && c in s.clients && s.clients[c].pc.Idle?
    ensures Alone(P.Do(s, P.Begin(c, P.CastVote(next))), c) == Alone(VotedBy(s, c, next), c)
  {
    var vote := s.clients[c].vote;
    var s1 := P.Put(s, c, P.Client(vote, P.Increment(next)));
    var s2 := P.Put(P.Add(s, next, 1), c, P.Client(vote, P.Decrement(next)));
    assert P.AdvanceClient(s1, c) == s2 && Alone(s1, c) == Alone(s2, c);
    var s3 := P.Put(P.AddOptional(P.Add(s, next, 1), vote, -1), c, P.Client(vote, P.Assign(next)));
    assert P.AdvanceClient(s2, c) == s3 && Alone(s2, c) == Alone(s3, c);
    assert P.AdvanceClient(s3, c) == VotedBy(s, c, next);
  }

  lemma {:induction false} AloneSnapshot(s: P.State, c: nat)
    requires |s.counts| == N_OPTIONS && forall o :: 0 <= o < N_OPTIONS ==> 0 <= s.counts[o]
    requires c in s.clients && s.clients[c].pc.Reading? && |s.clients[c].pc.got| < N_OPTIONS
    ensures
      var pc := s.clients[c].pc;
      Alone(s, c) ==
      P.Put(s, c, s.clients[c].(pc := P.Submitting(pc.got + s.counts[|pc.got|..], pc.since, pc.closing)))
    decreases N_OPTIONS - |s.clients[c].pc.got|
  {
    var pc := s.clients[c].pc;
    var s' := P.Do(s, P.Advance(c));
    var got' := pc.got + [s.counts[|pc.got|]];
    assert pc.got + s.counts[|pc.got|..] == got' + s.counts[|got'|..];
    if |got'| == N_OPTIONS {
      assert got' + s.counts[|got'|..] == got';
    } else {
      AloneSnapshot(s', c);
    }
  }
}
