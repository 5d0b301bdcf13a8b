/**
 The vote protocol and the throttled broadcast as one system: a connection that has finished its
 snapshot submits it, waits for the submission to return, and goes on.
 */
module Delivery {
  import opened Sets
  import P = VoteProtocol
  import T = Throttle
  import W = ThrottleDrain
  import Runs

  /** `sub` maps a connection to its submission in progress; `msgs[k]` is the snapshot submission `k` carries
      and `since[k]` the number of `fetch_add`s the board had seen when that snapshot began. */
  datatype State = State(votes: P.State, thr: T.State, sub: map<nat, nat>, msgs: seq<seq<int>>, since: seq<nat>)

  datatype Step =
    | Local(vote: P.Step)
    | Hand(c: nat)
    | Relay(task: T.Step)
    | Resume(c: nat)

  ghost predicate Init(s: State) {
    P.Init(s.votes) && T.Init(s.thr) && s.sub == map[] && s.msgs == [] && s.since == []
  }

  predicate Ready(s: State, c: nat) {
    c in s.votes.clients && s.votes.clients[c].pc.Submitting? && P.Enabled(s.votes, P.Advance(c))
  }

  predicate Enabled(s: State, step: Step) {
    match step
    case Local(vote) => P.Enabled(s.votes, vote) && (vote.Advance? ==> !s.votes.clients[vote.c].pc.Submitting?)
    case Hand(c) => Ready(s, c) && c !in s.sub
    case Relay(task) => T.Enabled(s.thr, task) && !task.Submit?
    case Resume(c) => Ready(s, c) && c in s.sub && s.sub[c] < |s.thr.subs| && s.thr.subs[s.sub[c]].Returned?
  }

  function Do(s: State, step: Step): State
    requires Enabled(s, step)
  {
    match step
    case Local(vote) => s.(votes := P.Do(s.votes, vote))
    case Hand(c) =>
      var pc := s.votes.clients[c].pc;
      s.(thr := T.Do(s.thr, T.Submit), sub := s.sub[c := |s.thr.subs|],
         msgs := s.msgs + [pc.snap], since := s.since + [pc.since])
    case Relay(task) => s.(thr := T.Do(s.thr, task))
    case Resume(c) => s.(votes := P.Do(s.votes, P.Advance(c)), sub := s.sub - {c})
  }

  ghost predicate Next(s: State, s': State) {
    exists step :: Enabled(s, step) && s' == Do(s, step)
  }

  ghost predicate Reachable(s: State) {
    Runs.Reachable(Init, Next, s)
  }

  // ---- What every step keeps ----

  predicate Linked(s: State) {
    && |s.msgs| == |s.since| == |s.thr.subs|
    && (forall c :: c in s.sub ==>
          c in s.votes.clients && s.votes.clients[c].pc.Submitting? && s.sub[c] < |s.thr.subs| &&
          s.since[s.sub[c]] == s.votes.clients[c].pc.since)
    && (forall c, d :: c in s.sub && d in s.sub && c != d ==> s.sub[c] != s.sub[d])
  }

  /** Every unfinished submission has its connection waiting for it. */
  ghost predicate Owned(s: State) {
    forall k :: 0 <= k < |s.thr.subs| && !s.thr.subs[k].Returned? ==> exists c :: c in s.sub && s.sub[c] == k
  }

  /** The snapshot of submission `k` began after the last `fetch_add`. */
  predicate Fresh(s: State, k: nat) {
    k < |s.since| && s.since[k] == s.votes.adds
  }

  predicate MessagesFit(s: State) {
    |s.msgs| == |s.since| &&
    forall k :: 0 <= k < |s.since| ==>
      s.since[k] <= s.votes.adds && (Fresh(s, k) ==> s.msgs[k] == s.votes.counts)
  }

  /** The connection is still going to submit a snapshot that began after the last `fetch_add`. */
  predicate WillSubmit(s: State, c: nat) {
    c in s.votes.clients &&
    match s.votes.clients[c].pc
    case Decrement(_) => true
    case Assign(_) => true
    case Reading(_, since, _) => since == s.votes.adds
    case Submitting(_, since, _) => since == s.votes.adds
    case _ => false
  }

  ghost predicate FreshSomewhere(s: State) {
    s.votes.adds > 0 ==> (exists c :: WillSubmit(s, c)) || (exists k: nat :: Fresh(s, k))
  }

  ghost predicate Coupled(s: State) {
    && Linked(s)
    && Owned(s)
    && MessagesFit(s)
    && FreshSomewhere(s)
  }

  ghost predicate Inv(s: State) {
    P.Inv(s.votes) && T.Inv(s.thr) && Coupled(s)
  }

  /** A step of the vote protocol either performs one more `fetch_add`, after which its connection will
      submit a fresh snapshot, or leaves the counters as they are. */
  lemma AddsMeanFresh(s: P.State, step: P.Step)
    requires P.Enabled(s, step)
    ensures s.adds <= P.Do(s, step).adds
    ensures P.Do(s, step).adds == s.adds ==> P.Do(s, step).counts == s.counts
    ensures P.Do(s, step).adds != s.adds ==>
      var pc := P.Do(s, step).clients[step.c].pc;
      pc.Decrement? || pc.Assign? || (pc.Reading? && pc.since == P.Do(s, step).adds)
  {
  }

  lemma LocalKeeps(s: State, vote: P.Step)
    requires Coupled(s) && Enabled(s, Local(vote))
    ensures Coupled(Do(s, Local(vote)))
  {
    var s' := Do(s, Local(vote));
    AddsMeanFresh(s.votes, vote);
    assert forall k: nat :: Fresh(s', k) ==> Fresh(s, k) by {
      assert forall k :: 0 <= k < |s.since| ==> s.since[k] <= s.votes.adds;
    }
    if s'.votes.adds != s.votes.adds {
      assert WillSubmit(s', vote.c);
    } else if c :| WillSubmit(s, c) {
      assert WillSubmit(s', c);
    } else if k: nat :| Fresh(s, k) {
      assert Fresh(s', k);
    }
  }

  lemma HandKeeps(s: State, c: nat)
    requires Coupled(s) && Enabled(s, Hand(c)) && P.ClientFits(s.votes, s.votes.clients[c])
    ensures Coupled(Do(s, Hand(c)))
  {
    var s' := Do(s, Hand(c));
    var n := |s.thr.subs|;
    forall k | 0 <= k < |s'.thr.subs| && !s'.thr.subs[k].Returned? ensures exists d :: d in s'.sub && s'.sub[d] == k {
      if k < n {
        var d :| d in s.sub && s.sub[d] == k;
        assert s'.sub[d] == k;
      } else {
        assert s'.sub[c] == k;
      }
    }
    if d :| WillSubmit(s, d) {
      assert WillSubmit(s', d);
    } else if k: nat :| Fresh(s, k) {
      assert Fresh(s', k);
    }
  }

  lemma RelayKeeps(s: State, task: T.Step)
    requires Coupled(s) && Enabled(s, Relay(task))
    ensures Coupled(Do(s, Relay(task)))
  {
    var s' := Do(s, Relay(task));
    if d :| WillSubmit(s, d) {
      assert WillSubmit(s', d);
    } else if k: nat :| Fresh(s, k) {
      assert Fresh(s', k);
    }
  }

  lemma ResumeKeeps(s: State, c: nat)
    requires Coupled(s) && Enabled(s, Resume(c))
    ensures Coupled(Do(s, Resume(c)))
  {
    var s' := Do(s, Resume(c));
    forall k | 0 <= k < |s'.thr.subs| && !s'.thr.subs[k].Returned? ensures exists d :: d in s'.sub && s'.sub[d] == k {
      var d :| d in s.sub && s.sub[d] == k;
      assert s'.sub[d] == k;
    }
    if d :| WillSubmit(s, d) {
      if d == c {
        assert Fresh(s', s.sub[c]);
      } else {
        assert WillSubmit(s', d);
      }
    } else if k: nat :| Fresh(s, k) {
      assert Fresh(s', k);
    }
  }

  lemma InvStep(s: State, step: Step)
    requires Inv(s) && Enabled(s, step)
    ensures Inv(Do(s, step))
  {
    match step
    case Local(vote) =>
      P.InvStep(s.votes, vote);
      LocalKeeps(s, vote);
    case Hand(c) =>
      T.InvStep(s.thr, T.Submit);
      HandKeeps(s, c);
    case Relay(task) =>
      T.InvStep(s.thr, task);
      RelayKeeps(s, task);
    case Resume(c) =>
      P.InvStep(s.votes, P.Advance(c));
      ResumeKeeps(s, c);
  }

  lemma InvInit(s: State)
    requires Init(s)
    ensures Inv(s)
  {
    P.InvInit(s.votes);
    T.InvInit(s.thr);
  }

  lemma ReachableInv(s: State)
    requires Reachable(s)
    ensures Inv(s)
  {
    forall s0 | Init(s0) ensures Inv(s0) {
      InvInit(s0);
    }
    forall s0, s1 | Inv(s0) && Next(s0, s1) ensures Inv(s1) {
      var step :| Enabled(s0, step) && s1 == Do(s0, step);
      InvStep(s0, step);
    }
    Runs.Always(Init, Next, Inv, s);
  }

  // ---- The two protocols inside ----

  ghost predicate PartsReachable(s: State) {
    P.Reachable(s.votes) && T.Reachable(s.thr)
  }

  lemma PartsStayReachable(s: State, step: Step)
    requires PartsReachable(s) && Enabled(s, step)
    ensures PartsReachable(Do(s, step))
  {
    match step
    case Local(vote) => P.ReachableStep(s.votes, vote);
    case Hand(c) => Runs.Extend(T.Init, T.Next, s.thr, T.Do(s.thr, T.Submit));
    case Relay(task) => Runs.Extend(T.Init, T.Next, s.thr, T.Do(s.thr, task));
    case Resume(c) => P.ReachableStep(s.votes, P.Advance(c));
  }

  /** A run of the two together is a run of each, so all that holds of the runs of either holds here. */
  lemma RunsProject(s: State)
    requires Reachable(s)
    ensures P.Reachable(s.votes) && T.Reachable(s.thr)
  {
    forall s0 | Init(s0) ensures PartsReachable(s0) {
      Runs.Start(P.Init, P.Next, s0.votes);
      Runs.Start(T.Init, T.Next, s0.thr);
    }
    forall s0, s1 | PartsReachable(s0) && Next(s0, s1) ensures PartsReachable(s1) {
      var step :| Enabled(s0, step) && s1 == Do(s0, step);
      PartsStayReachable(s0, step);
    }
    Runs.Always(Init, Next, PartsReachable, s);
  }

  /** A submission runs to its end without waiting for anybody. */
  lemma {:induction false} SubmissionReturns(s0: State, s: State, k: nat) returns (s': State)
    requires Runs.Leads(Next, s0, s) && k < |s.thr.subs|
    ensures Runs.Leads(Next, s0, s') && s' == s.(thr := s'.thr)
    ensures k < |s'.thr.subs| && s'.thr.subs[k].Returned?
    decreases W.SubWork(s.thr.subs[k])
  {
    s' := s;
    if !s.thr.subs[k].Returned? {
      s' := Do(s, Relay(T.Proceed(k, 0)));
      Runs.LeadsOn(Next, s0, s, s');
      s' := SubmissionReturns(s0, s', k);
    }
  }

  lemma HandedOver(s: State, c: nat) returns (s': State)
    requires Reachable(s) && Ready(s, c)
    ensures Runs.Leads(Next, s, s') && s'.votes == s.votes && c in s'.sub && s'.sub[c] < |s'.thr.subs|
  {
    ReachableInv(s);
    Runs.Stay(Next, s);
    s' := s;
    if c !in s.sub {
      s' := Do(s, Hand(c));
      Runs.LeadsOn(Next, s, s, s');
    }
  }

  /** Whatever step of the vote protocol a connection can take, it can take here: at once, but for the end of its
      submission, which it gets to by handing over and letting the submission run to its end. */
  lemma VoteStepTaken(s: State, vote: P.Step) returns (s': State)
    requires Reachable(s) && P.Enabled(s.votes, vote)
    ensures Runs.Leads(Next, s, s') && s'.votes == P.Do(s.votes, vote)
    ensures !(vote.Advance? && s.votes.clients[vote.c].pc.Submitting?) ==> Enabled(s, Local(vote))
  {
    if vote.Advance? && s.votes.clients[vote.c].pc.Submitting? {
      var c := vote.c;
      var s1 := HandedOver(s, c);
      var s2 := SubmissionReturns(s, s1, s1.sub[c]);
      s' := Do(s2, Resume(c));
      Runs.LeadsOn(Next, s, s2, s');
    } else {
      s' := Do(s, Local(vote));
      Runs.Stay(Next, s);
      Runs.LeadsOn(Next, s, s, s');
    }
  }

  // ---- Main results ----

  /** Every connection is back at its loop or gone, and no flusher is left. */
  ghost predicate AtRest(s: State) {
    && (forall c :: c in s.votes.clients ==> s.votes.clients[c].pc.Idle? || s.votes.clients[c].pc.Gone?)
    && (forall f :: 0 <= f < |s.thr.flushers| ==> s.thr.flushers[f].Done?)
  }

  lemma RestIsQuiescent(s: State)
    requires Coupled(s) && AtRest(s)
    ensures T.Quiescent(s.thr)
  {
    assert forall c :: c !in s.sub;
  }

  function LastEffect(s: State): nat
    requires s.thr.order != []
  {
    s.thr.order[|s.thr.order| - 1]
  }

  /** The snapshots on the channel, in order. */
  ghost predicate OnChannel(s: State, board: seq<int>) {
    exists i :: 0 <= i < |s.thr.sh.chan| && s.thr.sh.chan[i].id < |s.msgs| && s.msgs[s.thr.sh.chan[i].id] == board
  }

  /** When everything has come to rest after at least one `fetch_add`: some submission carried the final
      board; the submission that took effect last is on the channel; and it carries the final board if its
      snapshot began after the last `fetch_add`. */
  lemma FinalDelivery(s: State)
    requires Reachable(s) && AtRest(s) && s.votes.adds > 0
    ensures exists k: nat :: Fresh(s, k) && k < |s.msgs| && s.msgs[k] == s.votes.counts
    ensures s.thr.order != [] && T.Positions(s.thr, LastEffect(s)) != {}
    ensures Fresh(s, LastEffect(s)) ==> OnChannel(s, s.votes.counts)
  {
    ReachableInv(s);
    RestIsQuiescent(s);
    var k := FreshSubmission(s);
    T.QuietlyEmpty(s.thr);
    EffectsDelivered(s.thr, k);
    if Fresh(s, LastEffect(s)) {
      FreshOnChannel(s);
    }
  }

  lemma FreshOnChannel(s: State)
    requires Inv(s) && AtRest(s) && s.thr.order != [] && Fresh(s, LastEffect(s))
    ensures OnChannel(s, s.votes.counts)
  {
    RestIsQuiescent(s);
    var l := LastEffect(s);
    EffectsDelivered(s.thr, l);
    var i :| i in T.Positions(s.thr, l);
    assert s.msgs[s.thr.sh.chan[i].id] == s.votes.counts;
  }

  lemma FreshSubmission(s: State) returns (k: nat)
    requires Coupled(s) && AtRest(s) && s.votes.adds > 0
    ensures Fresh(s, k) && k < |s.msgs| && k < |s.thr.subs| && s.msgs[k] == s.votes.counts
  {
    assert forall c :: !WillSubmit(s, c);
    k :| Fresh(s, k);
  }

  lemma EffectsDelivered(t: T.State, k: nat)
    requires T.Inv(t) && T.Quiescent(t) && k < |t.subs|
    ensures t.order != [] && t.order[|t.order| - 1] < |t.subs| && T.Positions(t, t.order[|t.order| - 1]) != {}
  {
    T.QuietlyEmpty(t);
    assert !T.InFlight(t, k) && k in t.order;
    var l := t.order[|t.order| - 1];
    assert l in t.order;
    assert |T.Positions(t, l)| + Bit(l in t.lost) == 1;
  }

  /** A snapshot on the channel that began after the last `fetch_add` is the present board. */
  lemma FreshIsFinalBoard(s: State, i: nat)
    requires Reachable(s) && i < |s.thr.sh.chan| && Fresh(s, s.thr.sh.chan[i].id)
    ensures OnChannel(s, s.votes.counts)
  {
    ReachableInv(s);
    assert s.msgs[s.thr.sh.chan[i].id] == s.votes.counts;
  }
}
