/**
 What a non-atomic four-read snapshot can return while other connections keep voting.

 A window is a path of the vote protocol along which one connection takes one snapshot.
 */
module SnapshotWindow {
  import opened Sets
  import opened Wrappers
  import opened VoteProtocol
  import Runs

  /** The values the snapshot of connection `c` has read so far. */
  function Got(s: State, c: nat): seq<int>
    requires c in s.clients
  {
    match s.clients[c].pc
    case Reading(got, _, _) => got
    case Submitting(snap, _, _) => snap
    case _ => []
  }

  /** The path begins when `c` starts its snapshot, and `c` is still at its loads up to the last state. */
  ghost predicate Window(tr: seq<State>, c: nat) {
    && Runs.IsPath(Next, tr)
    && Inv(tr[0])
    && (forall i :: 0 <= i < |tr| ==> c in tr[i].clients)
    && tr[0].clients[c].pc.Reading? && tr[0].clients[c].pc.got == []
    && (forall i :: 0 <= i < |tr| - 1 ==> tr[i].clients[c].pc.Reading?)
    && (tr[|tr| - 1].clients[c].pc.Reading? || tr[|tr| - 1].clients[c].pc.Submitting?)
  }

  /** The window starts in a reachable state and ends with the finished snapshot. */
  ghost predicate FullWindow(tr: seq<State>, c: nat) {
    Window(tr, c) && Reachable(tr[0]) && tr[|tr| - 1].clients[c].pc.Submitting?
  }

  lemma WindowInv(tr: seq<State>, c: nat, i: nat)
    requires Window(tr, c) && i < |tr|
    ensures Inv(tr[i])
  {
    InvNext();
    Runs.Along(Next, Inv, tr, i);
  }

  /** The step is the reader's load of the next counter. */
  ghost predicate Loads(s: State, s': State, c: nat)
    requires c in s.clients && c in s'.clients
  {
    && |Got(s, c)| < N_OPTIONS == |s.counts|
    && Got(s', c) == Got(s, c) + [s.counts[|Got(s, c)|]]
    && s' == Put(s, c, s'.clients[c])
    && (forall o :: 0 <= o < N_OPTIONS ==> Holds(s'.clients[c], o) == Holds(s.clients[c], o))
    && (forall o :: 0 <= o < N_OPTIONS ==> Raised(s'.clients[c], o) == Raised(s.clients[c], o))
  }

  /** One step inside a window either leaves the reader alone, or is its load of the next counter. */
  lemma WindowStep(s: State, s': State, c: nat)
    requires Inv(s) && Next(s, s')
    requires c in s.clients && s.clients[c].pc.Reading?
    requires c in s'.clients && (s'.clients[c].pc.Reading? || s'.clients[c].pc.Submitting?)
    ensures s'.clients[c] == s.clients[c] || Loads(s, s', c)
  {
    var step :| Enabled(s, step) && s' == Do(s, step);
    assert ClientFits(s, s.clients[c]);
    NonNegative(s);
  }

  /** The `n`-th step of a window. */
  lemma StepAt(tr: seq<State>, c: nat, n: nat)
    requires Window(tr, c) && 0 < n < |tr|
    ensures |tr[n - 1].counts| == |tr[n].counts| == N_OPTIONS
    ensures c in tr[n - 1].clients && tr[n - 1].clients[c].pc.Reading? && |Got(tr[n - 1], c)| < N_OPTIONS
    ensures c in tr[n].clients && (tr[n].clients[c] == tr[n - 1].clients[c] || Loads(tr[n - 1], tr[n], c))
  {
    assert Next(tr[n - 1], tr[n]);
    WindowInv(tr, c, n - 1);
    WindowInv(tr, c, n);
    WindowStep(tr[n - 1], tr[n], c);
    assert ClientFits(tr[n - 1], tr[n - 1].clients[c]);
  }

  // ---- Each component is read at its own instant ----

  /** The instants of the loads done by state `n`. */
  ghost predicate ReadAt(tr: seq<State>, c: nat, n: nat, at: seq<nat>)
    requires n < |tr| && c in tr[n].clients
  {
    && |at| == |Got(tr[n], c)| <= N_OPTIONS
    && (forall i :: 0 <= i < |at| ==> at[i] < n && |tr[at[i]].counts| == N_OPTIONS)
    && (forall i, j :: 0 <= i < j < |at| ==> at[i] < at[j])
    && (forall i :: 0 <= i < |at| ==> Got(tr[n], c)[i] == tr[at[i]].counts[i])
  }

  lemma {:induction false} ReadsSoFar(tr: seq<State>, c: nat, n: nat) returns (at: seq<nat>)
    requires Window(tr, c) && n < |tr|
    ensures ReadAt(tr, c, n, at)
    decreases n
  {
    if n == 0 {
      at := [];
    } else {
      StepAt(tr, c, n);
      at := ReadsSoFar(tr, c, n - 1);
      if tr[n].clients[c] != tr[n - 1].clients[c] {
        ReadNext(tr, c, n, at);
        at := at + [n - 1];
      }
    }
  }

  lemma ReadNext(tr: seq<State>, c: nat, n: nat, at: seq<nat>)
    requires 0 < n < |tr| && c in tr[n - 1].clients && c in tr[n].clients
    requires ReadAt(tr, c, n - 1, at) && Loads(tr[n - 1], tr[n], c)
    ensures ReadAt(tr, c, n, at + [n - 1])
  {
  }

  /** Every component of a finished snapshot is its counter's value at one instant inside the window,
      and the four instants come in index order. */
  lemma ReadsAtInstants(tr: seq<State>, c: nat) returns (at: seq<nat>)
    requires FullWindow(tr, c)
    ensures |at| == |tr[|tr| - 1].clients[c].pc.snap| == N_OPTIONS
    ensures forall i :: 0 <= i < N_OPTIONS ==> at[i] < |tr| - 1 && |tr[at[i]].counts| == N_OPTIONS
    ensures forall i, j :: 0 <= i < j < N_OPTIONS ==> at[i] < at[j]
    ensures forall i :: 0 <= i < N_OPTIONS ==> tr[|tr| - 1].clients[c].pc.snap[i] == tr[at[i]].counts[i]
  {
    at := ReadsSoFar(tr, c, |tr| - 1);
    WindowInv(tr, c, |tr| - 1);
    assert ClientFits(tr[|tr| - 1], tr[|tr| - 1].clients[c]);
  }

  // ---- How far the total can drift ----

  /** The loads done so far together with the counters still to be loaded. */
  function Mixed(got: seq<int>, counts: seq<int>): seq<int>
    requires |got| <= |counts|
  {
    got + counts[|got|..]
  }

  /** What the snapshot would add up to if nothing changed any more. */
  function Forecast(s: State, c: nat): int
    requires c in s.clients && |Got(s, c)| <= |s.counts|
  {
    Sum(Mixed(Got(s, c), s.counts))
  }

  function Abs(x: int): nat {
    if x < 0 then -x else x
  }

  lemma {:induction false} SumUpdate(v: seq<int>, i: nat, x: int)
    requires i < |v|
    ensures Sum(v[i := x]) == Sum(v) - v[i] + x
    decreases |v|
  {
    var front := v[..|v| - 1];
    if i == |v| - 1 {
      assert v[i := x][..|v| - 1] == front;
    } else {
      SumUpdate(front, i, x);
      assert v[i := x][..|v| - 1] == front[i := x];
    }
  }

  /** One counter changed, by at most the number of `fetch_add`s in between. */
  ghost predicate Moved(s: State, s': State, i: nat) {
    && i < N_OPTIONS == |s.counts|
    && |s'.counts| == N_OPTIONS
    && s.adds <= s'.adds
    && Abs(s'.counts[i] - s.counts[i]) <= s'.adds - s.adds
    && s'.counts == s.counts[i := s'.counts[i]]
  }

  lemma StepMovesOne(s: State, s': State) returns (i: nat)
    requires Inv(s) && Next(s, s')
    ensures Moved(s, s', i)
  {
    var step :| Enabled(s, step) && s' == Do(s, step);
    i := 0;
    if s'.counts != s.counts {
      match s.clients[step.c].pc
      case Increment(next) => i := next;
      case Decrement(_) => i := s.clients[step.c].vote.value;
      case Remove(prev, _) => i := prev;
      case _ =>
    }
  }

  lemma MoveAt(tr: seq<State>, c: nat, n: nat) returns (i: nat)
    requires Window(tr, c) && 0 < n < |tr|
    ensures Moved(tr[n - 1], tr[n], i)
  {
    WindowInv(tr, c, n - 1);
    assert Next(tr[n - 1], tr[n]);
    i := StepMovesOne(tr[n - 1], tr[n]);
  }

  lemma MixedDrift(got: seq<int>, before: seq<int>, after: seq<int>, i: nat)
    requires |got| <= |before| && i < |before| && |after| == |before|
    requires after == before[i := after[i]]
    ensures Abs(Sum(Mixed(got, after)) - Sum(Mixed(got, before))) <= Abs(after[i] - before[i])
  {
    if i < |got| {
      assert Mixed(got, after) == Mixed(got, before);
    } else {
      assert Mixed(got, after) == Mixed(got, before)[i := after[i]];
      SumUpdate(Mixed(got, before), i, after[i]);
    }
  }

  lemma DriftStep(s: State, s': State, c: nat, i: nat)
    requires Moved(s, s', i) && c in s.clients && c in s'.clients
    requires |Got(s, c)| <= N_OPTIONS
    requires s'.clients[c] == s.clients[c] || Loads(s, s', c)
    ensures |Got(s', c)| <= N_OPTIONS
    ensures Abs(Forecast(s', c) - Forecast(s, c)) <= s'.adds - s.adds
  {
    if s'.clients[c] == s.clients[c] {
      MixedDrift(Got(s, c), s.counts, s'.counts, i);
    } else {
      assert Mixed(Got(s', c), s'.counts) == Mixed(Got(s, c), s.counts);
    }
  }

  lemma DriftAt(tr: seq<State>, c: nat, n: nat)
    requires Window(tr, c) && 0 < n < |tr|
    ensures |tr[n - 1].counts| == |tr[n].counts| == N_OPTIONS
    ensures |Got(tr[n - 1], c)| <= N_OPTIONS && |Got(tr[n], c)| <= N_OPTIONS
    ensures Abs(Forecast(tr[n], c) - Forecast(tr[n - 1], c)) <= tr[n].adds - tr[n - 1].adds
  {
    StepAt(tr, c, n);
    var i := MoveAt(tr, c, n);
    DriftStep(tr[n - 1], tr[n], c, i);
  }

  lemma {:induction false} DriftSoFar(tr: seq<State>, c: nat, n: nat)
    requires Window(tr, c) && n < |tr|
    ensures |tr[0].counts| == |tr[n].counts| == N_OPTIONS && |Got(tr[n], c)| <= N_OPTIONS
    ensures Abs(Forecast(tr[n], c) - Sum(tr[0].counts)) <= tr[n].adds - tr[0].adds
    decreases n
  {
    if n == 0 {
      assert Mixed([], tr[0].counts) == tr[0].counts;
    } else {
      DriftSoFar(tr, c, n - 1);
      DriftAt(tr, c, n);
    }
  }

  /** The total of a snapshot differs from the total of the counters when it began by at most the
      number of `fetch_add`s performed in between. */
  lemma SnapshotSkew(tr: seq<State>, c: nat)
    requires FullWindow(tr, c)
    ensures Abs(Sum(tr[|tr| - 1].clients[c].pc.snap) - Sum(tr[0].counts)) <= tr[|tr| - 1].adds - tr[0].adds
  {
    DriftSoFar(tr, c, |tr| - 1);
    MixedEnd(tr, c);
  }

  lemma MixedEnd(tr: seq<State>, c: nat)
    requires Window(tr, c) && tr[|tr| - 1].clients[c].pc.Submitting?
    ensures |Got(tr[|tr| - 1], c)| == |tr[|tr| - 1].counts| == N_OPTIONS
    ensures Forecast(tr[|tr| - 1], c) == Sum(tr[|tr| - 1].clients[c].pc.snap)
  {
    WindowInv(tr, c, |tr| - 1);
    var last := tr[|tr| - 1];
    assert ClientFits(last, last.clients[c]);
    assert Mixed(Got(last, c), last.counts) == last.clients[c].pc.snap;
  }

  // ---- Which moves a snapshot can miss ----

  /** Connection `v` contributes to some option at or above `low`. */
  ghost predicate CountsFrom(s: State, v: nat, low: nat) {
    v in s.clients &&
    exists o :: low <= o < N_OPTIONS && (Holds(s.clients[v], o) || Raised(s.clients[v], o))
  }

  /** `v` contributes to some option at every state of the path: it never withdraws, hangs up,
      or moves out of range. */
  ghost predicate Steady(tr: seq<State>, v: nat) {
    forall i :: 0 <= i < |tr| ==> CountsFrom(tr[i], v, 0)
  }

  /** Every decrement `v` is about to make along the path moves its vote from `p` to `n`, with `move(p, n)`. */
  ghost predicate Moves(tr: seq<State>, v: nat, move: (nat, nat) -> bool) {
    forall i :: 0 <= i < |tr| && v in tr[i].clients && tr[i].clients[v].pc.Decrement? && tr[i].clients[v].vote.Some?
      ==> move(tr[i].clients[v].vote.value, tr[i].clients[v].pc.next)
  }

  ghost predicate AllSteady(tr: seq<State>, voters: set<nat>, move: (nat, nat) -> bool) {
    forall v :: v in voters ==> Steady(tr, v) && Moves(tr, v, move)
  }

  predicate Ascending(p: nat, n: nat) {
    p <= n
  }

  /** A steady voter that moves upwards only, and counts at or above `low`, still does after a step. */
  lemma StaysAbove(s: State, s': State, v: nat, low: nat)
    requires Inv(s) && Next(s, s')
    requires CountsFrom(s, v, low) && CountsFrom(s', v, 0)
    requires s.clients[v].pc.Decrement? && s.clients[v].vote.Some? ==>
               Ascending(s.clients[v].vote.value, s.clients[v].pc.next)
    ensures CountsFrom(s', v, low)
  {
    var step :| Enabled(s, step) && s' == Do(s, step);
    var o :| low <= o < N_OPTIONS && (Holds(s.clients[v], o) || Raised(s.clients[v], o));
    assert ClientFits(s, s.clients[v]);
    if step.c == v && s.clients[v].pc.Decrement? {
      var n := s.clients[v].pc.next;
      var o' :| 0 <= o' < N_OPTIONS && (Holds(s'.clients[v], o') || Raised(s'.clients[v], o'));
      assert o' == n && Raised(s'.clients[v], n);
    } else {
      assert Holds(s'.clients[v], o) || Raised(s'.clients[v], o);
    }
  }

  lemma StaysAt(tr: seq<State>, c: nat, n: nat, v: nat, low: nat)
    requires Window(tr, c) && 0 < n < |tr| && Steady(tr, v) && Moves(tr, v, Ascending)
    requires CountsFrom(tr[n - 1], v, low)
    ensures CountsFrom(tr[n], v, low)
  {
    WindowInv(tr, c, n - 1);
    assert Next(tr[n - 1], tr[n]);
    assert CountsFrom(tr[n], v, 0);
    StaysAbove(tr[n - 1], tr[n], v, low);
  }

  /** The voters the loads so far have counted; every other steady voter still counts at an option
      that is yet to be loaded. */
  lemma {:induction false} SeenSoFar(tr: seq<State>, c: nat, voters: set<nat>, n: nat) returns (seen: set<nat>)
    requires Window(tr, c) && AllSteady(tr, voters, Ascending) && n < |tr|
    ensures |seen| <= Sum(Got(tr[n], c))
    ensures forall v :: v in voters ==> v in seen || CountsFrom(tr[n], v, |Got(tr[n], c)|)
    decreases n
  {
    if n == 0 {
      seen := {};
      assert forall v :: v in voters ==> Steady(tr, v);
    } else {
      StepAt(tr, c, n);
      seen := SeenSoFar(tr, c, voters, n - 1);
      var k := |Got(tr[n - 1], c)|;
      forall v | v in voters && CountsFrom(tr[n - 1], v, k) ensures CountsFrom(tr[n], v, k) {
        StaysAt(tr, c, n, v, k);
      }
      if tr[n].clients[c] != tr[n - 1].clients[c] {
        WindowInv(tr, c, n - 1);
        seen := ReadOne(tr[n - 1], tr[n], c, seen);
      }
    }
  }

  lemma SumAppend(v: seq<int>, x: int)
    ensures Sum(v + [x]) == Sum(v) + x
  {
    assert (v + [x])[..|v|] == v;
  }

  lemma CountedOnce(s: State, seen: set<nat>, k: nat, total: int)
    requires CountersAgree(s) && k < N_OPTIONS && |seen| <= total
    ensures |seen + (Holders(s.clients, k) + Raisers(s.clients, k))| <= total + s.counts[k]
  {
    UnionSize(seen, Holders(s.clients, k) + Raisers(s.clients, k));
    UnionSize(Holders(s.clients, k), Raisers(s.clients, k));
  }

  lemma CountedHere(s: State, s': State, c: nat, v: nat, k: nat)
    requires c in s.clients && c in s'.clients && Loads(s, s', c) && CountsFrom(s', v, k)
    requires v !in Holders(s.clients, k) + Raisers(s.clients, k)
    ensures CountsFrom(s', v, k + 1)
  {
    var o :| k <= o < N_OPTIONS && (Holds(s'.clients[v], o) || Raised(s'.clients[v], o));
    assert Holds(s.clients[v], o) || Raised(s.clients[v], o);
    assert o != k;
  }

  /** Loading a counter counts everyone who contributes to it. */
  lemma ReadOne(s: State, s': State, c: nat, seen: set<nat>) returns (seen': set<nat>)
    requires CountersAgree(s) && c in s.clients && c in s'.clients && Loads(s, s', c)
    requires |seen| <= Sum(Got(s, c))
    ensures |seen'| <= Sum(Got(s', c)) && seen <= seen'
    ensures forall v :: CountsFrom(s', v, |Got(s, c)|) && v !in seen' ==> CountsFrom(s', v, |Got(s, c)| + 1)
  {
    var k := |Got(s, c)|;
    seen' := seen + (Holders(s.clients, k) + Raisers(s.clients, k));
    SumAppend(Got(s, c), s.counts[k]);
    CountedOnce(s, seen, k, Sum(Got(s, c)));
    forall v | CountsFrom(s', v, k) && v !in seen' ensures CountsFrom(s', v, k + 1) {
      CountedHere(s, s', c, v, k);
    }
  }

  /** If every vote moved during the snapshot moves to the same or a higher index, the snapshot
      counts every steady voter: it cannot under-count. */
  lemma AscendingNeverMissed(tr: seq<State>, c: nat, voters: set<nat>)
    requires FullWindow(tr, c) && AllSteady(tr, voters, Ascending)
    ensures |voters| <= Sum(tr[|tr| - 1].clients[c].pc.snap)
  {
    var seen := SeenSoFar(tr, c, voters, |tr| - 1);
    WindowInv(tr, c, |tr| - 1);
    var last := tr[|tr| - 1];
    assert ClientFits(last, last.clients[c]);
    SubsetSize(voters, seen);
  }

  /** A snapshot that reports fewer votes than there are steady voters, although each of them only
      ever moves from `p` to `n` while it is taken. */
  ghost predicate Misses(tr: seq<State>, c: nat, voters: set<nat>, p: nat, n: nat) {
    && FullWindow(tr, c)
    && AllSteady(tr, voters, (p0, n0) => p0 == p && n0 == n)
    && Sum(tr[|tr| - 1].clients[c].pc.snap) < |voters|
  }

  ghost predicate CanMiss(p: nat, n: nat) {
    exists tr, c, voters :: Misses(tr, c, voters, p, n)
  }

  // ---- The missed voter ----

  function Zeros(k: nat): (z: seq<int>)
    ensures |z| == k && forall i :: 0 <= i < k ==> z[i] == 0
  {
    seq(k, _ => 0)
  }

  lemma {:induction false} SumZeros(k: nat)
    ensures Sum(Zeros(k)) == 0
    decreases k
  {
    if k == 0 {
    } else {
      SumZeros(k - 1);
      assert Zeros(k)[..k - 1] == Zeros(k - 1);
    }
  }

  /** A board with one voter (connection 1) and one connection taking a snapshot (connection 0). */
  function Pair(counts: seq<int>, adds: nat, reader: Client, voter: Client): State {
    State(counts, adds, map[0 := reader, 1 := voter])
  }

  /** The reader after `k` loads that all returned zero. It voted out of range, so it counts nowhere. */
  function Reader(k: nat): Client {
    Client(Some(N_OPTIONS), if k == N_OPTIONS then Submitting(Zeros(k), 1, false) else Reading(Zeros(k), 1, false))
  }

  /** The voter on its way from `p` to `n`. */
  function Mover(stage: nat, p: nat, n: nat): Client {
    Client(Some(p), if stage == 0 then Idle else if stage == 1 then Increment(n)
                    else if stage == 2 then Decrement(n) else Assign(n))
  }

  function MoverCounts(stage: nat, p: nat, n: nat): (v: seq<int>)
    ensures |v| == N_OPTIONS
    ensures forall o :: 0 <= o < N_OPTIONS ==> v[o] == Bit(o == p && stage <= 2) + Bit(o == n && stage >= 2)
  {
    seq(N_OPTIONS, o => Bit(o == p && stage <= 2) + Bit(o == n && stage >= 2))
  }

  function MissState(loads: nat, stage: nat, p: nat, n: nat): State {
    var adds := if stage <= 1 then 1 else if stage == 2 then 2 else 3;
    Pair(MoverCounts(stage, p, n), adds, Reader(loads), Mover(stage, p, n))
  }

  /** The first `p` loads, the whole move, then the other loads. */
  function MissAt(i: nat, p: nat, n: nat): State {
    if i <= p then MissState(i, 0, p, n)
    else if i <= p + 3 then MissState(p, i - p, p, n)
    else MissState(i - 3, 3, p, n)
  }

  lemma MissLoad(k: nat, stage: nat, p: nat, n: nat)
    requires n < p < N_OPTIONS && k < N_OPTIONS
    requires if stage == 0 then k < p else stage == 3 && p <= k
    ensures Next(MissState(k, stage, p, n), MissState(k + 1, stage, p, n))
  {
    var s, s' := MissState(k, stage, p, n), MissState(k + 1, stage, p, n);
    assert Enabled(s, Advance(0));
    assert Zeros(k + 1) == Zeros(k) + [0];
    assert s.clients[0] == Reader(k) && s.counts[k] == 0;
    assert s' == Put(s, 0, Reader(k + 1));
    assert s' == Do(s, Advance(0));
  }

  lemma MissMove(stage: nat, p: nat, n: nat)
    requires n < p < N_OPTIONS && stage < 3
    ensures Next(MissState(p, stage, p, n), MissState(p, stage + 1, p, n))
  {
    var s, s' := MissState(p, stage, p, n), MissState(p, stage + 1, p, n);
    var step := if stage == 0 then Begin(1, CastVote(n)) else Advance(1);
    assert s.clients[1] == Mover(stage, p, n);
    assert Enabled(s, step);
    assert s'.counts == if stage == 0 then s.counts else if stage == 1 then s.counts[n := s.counts[n] + 1]
                        else s.counts[p := s.counts[p] - 1];
    assert s' == Put(State(s'.counts, s'.adds, s.clients), 1, Mover(stage + 1, p, n));
    assert s' == Do(s, step);
  }

  lemma MissStep(i: nat, p: nat, n: nat)
    requires n < p < N_OPTIONS && i < 7
    ensures Next(MissAt(i, p, n), MissAt(i + 1, p, n))
  {
    if i < p {
      MissLoad(i, 0, p, n);
    } else if i < p + 3 {
      MissMove(i - p, p, n);
    } else {
      MissLoad(i - 3, 3, p, n);
    }
  }

  /** A run up to the moment the reader starts its snapshot: the voter has voted `p` and settled. */
  lemma MissStart(p: nat, n: nat)
    requires n < p < N_OPTIONS
    ensures Reachable(MissAt(0, p, n))
  {
    var unvoted := Client(None, Idle);
    var s0 := State([0, 0, 0, 0], 0, map[]);
    Runs.Start(Init, Next, s0);
    ReachableStep(s0, Connect(0));
    ReachableStep(Do(s0, Connect(0)), Connect(1));
    var s1 := Pair(s0.counts, 0, unvoted, unvoted);
    assert s1 == Do(Do(s0, Connect(0)), Connect(1));
    ReachVote(s1, 1, p);
    var s2 := Pair(s0.counts[p := 1], 1, unvoted, Client(Some(p), Reading([], 1, false)));
    assert s2 == Put(Add(s1, p, 1), 1, Client(Some(p), Reading([], 1, false)));
    ReachSnapshot(s2, 1);
    var s3 := Pair(s2.counts, 1, unvoted, Client(Some(p), Idle));
    assert s3 == Put(s2, 1, s2.clients[1].(pc := Idle));
    ReachVote(s3, 0, N_OPTIONS);
    assert s3.counts == MoverCounts(0, p, n) && Zeros(0) == [];
    assert MissAt(0, p, n) == Put(s3, 0, Client(Some(N_OPTIONS), Reading([], 1, false)));
  }

  /** A first vote, run without interruption up to its snapshot. */
  lemma ReachVote(s: State, c: nat, o: nat)
    requires Reachable(s) && |s.counts| == N_OPTIONS
    requires c in s.clients && s.clients[c] == Client(None, Idle)
    ensures Reachable(Put(Add(s, o, 1), c, Client(Some(o), Reading([], Add(s, o, 1).adds, false))))
  {
    ReachableStep(s, Begin(c, CastVote(o)));
    var s1 := Put(s, c, Client(None, Increment(o)));
    ReachableStep(s1, Advance(c));
    var s2 := Put(Add(s, o, 1), c, Client(None, Decrement(o)));
    assert s2 == Do(s1, Advance(c));
    ReachableStep(s2, Advance(c));
    var s3 := Put(Add(s, o, 1), c, Client(None, Assign(o)));
    assert s3 == Do(s2, Advance(c));
    ReachableStep(s3, Advance(c));
    assert Do(s3, Advance(c)) == Put(Add(s, o, 1), c, Client(Some(o), Reading([], Add(s, o, 1).adds, false)));
  }

  /** A whole snapshot, run without interruption until the connection is back at its loop. */
  lemma ReachSnapshot(s: State, c: nat)
    requires Reachable(s) && |s.counts| == N_OPTIONS
    requires c in s.clients && s.clients[c].pc.Reading? && s.clients[c].pc.got == [] && !s.clients[c].pc.closing
    ensures Reachable(Put(s, c, s.clients[c].(pc := Idle)))
  {
    var s' := LoadRest(s, c);
    ReachableStep(s', Advance(c));
    assert Do(s', Advance(c)) == Put(s, c, s.clients[c].(pc := Idle));
  }

  lemma LoadRest(s: State, c: nat) returns (s': State)
    requires Reachable(s) && |s.counts| == N_OPTIONS
    requires c in s.clients && s.clients[c].pc.Reading? && |s.clients[c].pc.got| < N_OPTIONS && !s.clients[c].pc.closing
    ensures Reachable(s') && |s'.counts| == N_OPTIONS && c in s'.clients
    ensures s'.clients[c].pc.Submitting? && !s'.clients[c].pc.closing
    ensures s' == Put(s, c, s.clients[c].(pc := s'.clients[c].pc))
    decreases N_OPTIONS - |s.clients[c].pc.got|
  {
    ReachableStep(s, Advance(c));
    s' := Do(s, Advance(c));
    if s'.clients[c].pc.Reading? {
      s' := LoadRest(s', c);
    }
  }

  lemma MissPath(p: nat, n: nat) returns (tr: seq<State>)
    requires n < p < N_OPTIONS
    ensures |tr| == 8 && Runs.IsPath(Next, tr) && forall i :: 0 <= i < 8 ==> tr[i] == MissAt(i, p, n)
  {
    tr := seq(8, i requires 0 <= i => MissAt(i, p, n));
    forall i, j | 0 <= i && j == i + 1 < |tr| ensures Next(tr[i], tr[j]) {
      MissStep(i, p, n);
    }
  }

  lemma MissWitness(p: nat, n: nat)
    requires n < p < N_OPTIONS
    ensures CanMiss(p, n)
  {
    var tr := MissPath(p, n);
    MissStart(p, n);
    ReachableInv(tr[0]);
    assert FullWindow(tr, 0);
    forall i | 0 <= i < |tr| ensures CountsFrom(tr[i], 1, 0) {
      assert Holds(tr[i].clients[1], p) || Raised(tr[i].clients[1], n);
    }
    assert AllSteady(tr, {1}, (p0, n0) => p0 == p && n0 == n);
    SumZeros(N_OPTIONS);
    assert Misses(tr, 0, {1}, p, n);
  }

  /** Increment-before-decrement does not make every snapshot an over-count: a snapshot can miss a
      voter that moves from `p` to `n` exactly when the move goes to a lower index. */
  lemma UndercountIff(p: nat, n: nat)
    requires p < N_OPTIONS && n < N_OPTIONS
    ensures CanMiss(p, n) <==> n < p
  {
    if n < p {
      MissWitness(p, n);
    } else if CanMiss(p, n) {
      var tr, c, voters :| Misses(tr, c, voters, p, n);
      forall v | v in voters ensures Steady(tr, v) && Moves(tr, v, Ascending) {
        assert Moves(tr, v, (p0, n0) => p0 == p && n0 == n);
      }
      AscendingNeverMissed(tr, c, voters);
    }
  }
}
