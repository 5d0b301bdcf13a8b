/** How the bots check the server's vote counts: the tally of their last votes against a snapshot they agree on. */
module Integrity {
  import opened Sets
  import opened Wrappers
  import P = VoteProtocol

  const N_OPTIONS := P.N_OPTIONS

  /** The bots that last voted for option `o`. */
  function VotersOf(votes: seq<Option<nat>>, o: nat): set<nat> {
    set i | 0 <= i < |votes| && votes[i] == Some(o)
  }

  lemma VotersStep(votes: seq<Option<nat>>, i: nat, o: nat)
    requires i < |votes|
    ensures |VotersOf(votes[..i + 1], o)| == |VotersOf(votes[..i], o)| + Bit(votes[i] == Some(o))
  {
    var before := VotersOf(votes[..i], o);
    assert VotersOf(votes[..i + 1], o) == if votes[i] == Some(o) then before + {i} else before;
  }

  method TallyVotes(votes: seq<Option<nat>>) returns (counts: seq<nat>)
    ensures |counts| == N_OPTIONS
    ensures forall o :: 0 <= o < N_OPTIONS ==> counts[o] == |VotersOf(votes, o)|
  {
    counts := [0, 0, 0, 0];
    for i := 0 to |votes|
      invariant |counts| == N_OPTIONS
      invariant forall o :: 0 <= o < N_OPTIONS ==> counts[o] == |VotersOf(votes[..i], o)|
    {
      forall o | 0 <= o < N_OPTIONS
        ensures |VotersOf(votes[..i + 1], o)| == |VotersOf(votes[..i], o)| + Bit(votes[i] == Some(o))
      {
        VotersStep(votes, i, o);
      }
      if votes[i].Some? {
        var option := votes[i].value;
        if option < N_OPTIONS {
          counts := counts[option := counts[option] + 1];
        }
      }
    }
    assert votes[..|votes|] == votes;
  }

  // ---- The snapshot the bots agree on ----

  type Snapshot = s: seq<nat> | |s| == N_OPTIONS witness [0, 0, 0, 0]

  function Total(s: Snapshot): nat {
    s[0] + s[1] + s[2] + s[3]
  }

  lemma TotalIsSum(s: Snapshot)
    ensures Total(s) == P.Sum(s)
  {
    assert s[..3][..2] == s[..2] && s[..2][..1] == s[..1] && s[..1][..0] == [];
    assert P.Sum(s[..1]) == s[0];
    assert P.Sum(s[..2]) == s[0] + s[1];
    assert P.Sum(s[..3]) == s[0] + s[1] + s[2];
  }

  /** The bots whose last snapshot was `s`. */
  function SeenBy(last: seq<Option<Snapshot>>, s: Snapshot): set<nat> {
    set i | 0 <= i < |last| && last[i] == Some(s)
  }

  /** The bots that received any snapshot. */
  function Receivers(last: seq<Option<Snapshot>>): set<nat> {
    set i | 0 <= i < |last| && last[i].Some?
  }

  lemma SeenStep(last: seq<Option<Snapshot>>, i: nat, s: Snapshot)
    requires i < |last|
    ensures |SeenBy(last[..i + 1], s)| == |SeenBy(last[..i], s)| + Bit(last[i] == Some(s))
  {
    var before := SeenBy(last[..i], s);
    assert SeenBy(last[..i + 1], s) == if last[i] == Some(s) then before + {i} else before;
  }

  /** `a` loses against `b`: seen by fewer bots, or by as many and with no larger sum. */
  predicate NotBetter(last: seq<Option<Snapshot>>, a: Snapshot, b: Snapshot) {
    || |SeenBy(last, a)| < |SeenBy(last, b)|
    || (|SeenBy(last, a)| == |SeenBy(last, b)| && Total(a) <= Total(b))
  }

  /** A most frequent snapshot, and among those one with the largest sum. */
  ghost predicate IsPick(last: seq<Option<Snapshot>>, best: Snapshot) {
    if Receivers(last) == {} then best == [0, 0, 0, 0]
    else SeenBy(last, best) != {} && forall s: Snapshot :: SeenBy(last, s) != {} ==> NotBetter(last, s, best)
  }

  /** Counts how often each snapshot was seen; every count is positive. */
  method CountSnapshots(last: seq<Option<Snapshot>>) returns (tally: map<Snapshot, nat>)
    ensures forall s: Snapshot :: s in tally <==> SeenBy(last, s) != {}
    ensures forall s :: s in tally ==> tally[s] == |SeenBy(last, s)|
  {
    tally := map[];
    for i := 0 to |last|
      invariant forall s: Snapshot :: (if s in tally then tally[s] else 0) == |SeenBy(last[..i], s)|
      invariant forall s :: s in tally ==> tally[s] > 0
    {
      forall s: Snapshot
        ensures |SeenBy(last[..i + 1], s)| == |SeenBy(last[..i], s)| + Bit(last[i] == Some(s))
      {
        SeenStep(last, i, s);
      }
      if last[i].Some? {
        var s := last[i].value;
        tally := tally[s := (if s in tally then tally[s] else 0) + 1];
      }
    }
    assert last[..|last|] == last;
    forall s: Snapshot ensures s in tally <==> SeenBy(last, s) != {} {
      assert s in tally <==> |SeenBy(last, s)| > 0;
    }
  }

  /** Picks the snapshot to compare with, going through the counts in an arbitrary order. */
  method PickActualSnapshot(last: seq<Option<Snapshot>>) returns (best: Snapshot)
    ensures IsPick(last, best)
  {
    var tally := CountSnapshots(last);
    var left := tally.Keys;
    best := [0, 0, 0, 0];
    if left == {} {
      NobodyReceived(last);
      return;
    }
    best :| best in left;
    left := left - {best};
    while left != {}
      invariant best in tally && left <= tally.Keys
      invariant forall s :: s in tally && s !in left ==> NotBetter(last, s, best)
      decreases left
    {
      var s :| s in left;
      left := left - {s};
      if tally[s] > tally[best] || (tally[s] == tally[best] && Total(s) >= Total(best)) {
        best := s;
      }
    }
    var i :| i in SeenBy(last, best);
    assert i in Receivers(last);
  }

  lemma NobodyReceived(last: seq<Option<Snapshot>>)
    requires forall s: Snapshot :: SeenBy(last, s) == {}
    ensures Receivers(last) == {}
  {
    assert forall i :: i in Receivers(last) ==> i in SeenBy(last, last[i].value);
  }

  /** No snapshot that some bot saw last was seen by more bots than the pick, and none seen by as many has a larger sum
      of its counts. */
  lemma PickIsBest(last: seq<Option<Snapshot>>, best: Snapshot, s: Snapshot)
    requires IsPick(last, best) && SeenBy(last, s) != {}
    ensures |SeenBy(last, s)| <= |SeenBy(last, best)|
    ensures |SeenBy(last, s)| == |SeenBy(last, best)| ==> P.Sum(s) <= P.Sum(best)
  {
    var i :| i in SeenBy(last, s);
    assert i in Receivers(last);
    TotalIsSum(s);
    TotalIsSum(best);
  }

  /** The pick is some bot's last snapshot, or four zeros if no bot has any. */
  lemma PickWasSeen(last: seq<Option<Snapshot>>, best: Snapshot)
    requires IsPick(last, best)
    ensures Some(best) in last || ((forall i :: 0 <= i < |last| ==> last[i] == None) && best == [0, 0, 0, 0])
  {
    if Receivers(last) == {} {
      forall i | 0 <= i < |last| ensures last[i] == None {
        assert i !in Receivers(last);
      }
    } else {
      var i :| i in SeenBy(last, best);
    }
  }

  /** A snapshot that more than half of the receiving bots saw last is picked. */
  lemma MajorityPicked(last: seq<Option<Snapshot>>, best: Snapshot, m: Snapshot)
    requires IsPick(last, best) && 2 * |SeenBy(last, m)| > |Receivers(last)|
    ensures best == m
  {
    var a, b := SeenBy(last, m), SeenBy(last, best);
    assert a != {};
    var i :| i in a;
    assert i in Receivers(last);
    assert NotBetter(last, m, best);
    SubsetSize(a + b, Receivers(last));
    assert best != m ==> a !! b;
    assert a !! b ==> |a + b| == |a| + |b|;
  }

  // ---- The check is sound for the board ----

  /** The last votes of the connections `ids`. */
  function LastVotes(s: P.State, ids: seq<nat>): seq<Option<nat>>
    requires forall i :: 0 <= i < |ids| ==> ids[i] in s.clients
  {
    seq(|ids|, i requires 0 <= i < |ids| => s.clients[ids[i]].vote)
  }

  /** With no vote in flight, the board equals the tally of the last votes of the connected clients, in
      whatever order these are listed. */
  lemma SettledBoardIsTally(s: P.State, ids: seq<nat>, o: nat)
    requires P.Reachable(s) && o < N_OPTIONS && |s.counts| == N_OPTIONS
    requires forall c :: c in s.clients ==> s.clients[c].pc.Idle? || s.clients[c].pc.Gone?
    requires forall i, j :: 0 <= i < j < |ids| ==> ids[i] != ids[j]
    requires forall c: nat :: c in ids <==> c in s.clients && s.clients[c].pc.Idle?
    ensures s.counts[o] == |VotersOf(LastVotes(s, ids), o)|
  {
    P.SettledCounters(s, o);
    var votes := LastVotes(s, ids);
    CountByPosition(votes, ids, o, |ids|);
    assert votes[..|ids|] == votes;
    assert Chosen(votes, ids, o, |ids|) ==
           set c | c in s.clients && s.clients[c].pc.Idle? && s.clients[c].vote == Some(o);
  }

  /** The ids among the first `k` whose vote is `o`. */
  function Chosen(votes: seq<Option<nat>>, ids: seq<nat>, o: nat, k: nat): set<nat>
    requires k <= |ids| == |votes|
  {
    set i | 0 <= i < k && votes[i] == Some(o) :: ids[i]
  }

  lemma ChosenStep(votes: seq<Option<nat>>, ids: seq<nat>, o: nat, k: nat)
    requires forall i, j :: 0 <= i < j < |ids| ==> ids[i] != ids[j]
    requires 0 < k <= |ids| == |votes|
    ensures |Chosen(votes, ids, o, k)| == |Chosen(votes, ids, o, k - 1)| + Bit(votes[k - 1] == Some(o))
  {
    var before := Chosen(votes, ids, o, k - 1);
    assert Chosen(votes, ids, o, k) == if votes[k - 1] == Some(o) then before + {ids[k - 1]} else before;
    assert ids[k - 1] !in before;
  }

  lemma {:induction false} CountByPosition(votes: seq<Option<nat>>, ids: seq<nat>, o: nat, k: nat)
    requires forall i, j :: 0 <= i < j < |ids| ==> ids[i] != ids[j]
    requires k <= |ids| == |votes|
    ensures |Chosen(votes, ids, o, k)| == |VotersOf(votes[..k], o)|
    decreases k
  {
    if k == 0 {
    } else {
      CountByPosition(votes, ids, o, k - 1);
      VotersStep(votes, k - 1, o);
      ChosenStep(votes, ids, o, k);
    }
  }
}
