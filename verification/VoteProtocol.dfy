/**
 The vote counters and the connections that update them, at the grain of one atomic access a step.

 A connection is a small program: `Vote` increments the new option, decrements the previous one, then
 assigns `current_vote`; `Unvote` and the disconnect clean-up decrement the held option; each of the
 three ends by loading the four counters one after the other and handing the snapshot over.
 Any number of connections interleave.
 */
module VoteProtocol {
  import opened Sets
  import opened Wrappers
  import Runs

  const N_OPTIONS: nat := 4

  /** Where a connection stands between two atomic accesses. `since` is the number of
      `fetch_add`s the board had seen when the snapshot began. */
  datatype Pc =
    | Idle
    | Increment(next: nat)
    | Decrement(next: nat)
    | Assign(next: nat)
    | Remove(prev: nat, closing: bool)
    | Reading(got: seq<int>, since: nat, closing: bool)
    | Submitting(snap: seq<int>, since: nat, closing: bool)
    | Gone

  datatype Client = Client(vote: Option<nat>, pc: Pc)

  /** `adds` counts the `fetch_add`s performed so far. */
  datatype State = State(counts: seq<int>, adds: nat, clients: map<nat, Client>)

  datatype Command = CastVote(option: nat) | Withdraw | Hangup

  datatype Step =
    | Connect(c: nat)
    | Begin(c: nat, command: Command)
    | Advance(c: nat)

  predicate Init(s: State) {
    s == State([0, 0, 0, 0], 0, map[])
  }

  predicate Enabled(s: State, step: Step) {
    |s.counts| == N_OPTIONS &&
    match step
    case Connect(c) => c !in s.clients
    case Begin(c, command) =>
      c in s.clients && s.clients[c].pc.Idle? &&
      (command.Withdraw? ==> s.clients[c].vote.Some?)
    case Advance(c) =>
      c in s.clients && !s.clients[c].pc.Idle? && !s.clients[c].pc.Gone? &&
      (s.clients[c].pc.Reading? ==> |s.clients[c].pc.got| < N_OPTIONS)
  }

  /** One `fetch_add` on an option; out-of-range options touch no counter. */
  function Add(s: State, option: nat, delta: int): State
    requires |s.counts| == N_OPTIONS
  {
    if option < N_OPTIONS
    then s.(counts := s.counts[option := s.counts[option] + delta], adds := s.adds + 1)
    else s
  }

  function AddOptional(s: State, option: Option<nat>, delta: int): State
    requires |s.counts| == N_OPTIONS
  {
    if option.Some? then Add(s, option.value, delta) else s
  }

  function Put(s: State, c: nat, cl: Client): State {
    s.(clients := s.clients[c := cl])
  }

  /** The clamp `.max(0)` of a load. */
  function Clamped(v: int): int {
    if v < 0 then 0 else v
  }

  function BeginClient(cl: Client, command: Command): Client {
    match command
    case CastVote(option) => cl.(pc := Increment(option))
    case Withdraw =>
      if cl.vote.Some? then Client(None, Remove(cl.vote.value, false)) else cl
    case Hangup =>
      if cl.vote.Some? then cl.(pc := Remove(cl.vote.value, true)) else cl.(pc := Gone)
  }

  function AdvanceClient(s: State, c: nat): State
    requires Enabled(s, Advance(c))
  {
    var cl := s.clients[c];
    match cl.pc
    case Increment(next) => Put(Add(s, next, 1), c, cl.(pc := Decrement(next)))
    case Decrement(next) => Put(AddOptional(s, cl.vote, -1), c, cl.(pc := Assign(next)))
    case Assign(next) => Put(s, c, Client(Some(next), Reading([], s.adds, false)))
    case Remove(prev, closing) =>
      var s' := Add(s, prev, -1);
      Put(s', c, cl.(pc := Reading([], s'.adds, closing)))
    case Reading(got, since, closing) =>
      var got' := got + [Clamped(s.counts[|got|])];
      Put(s, c, cl.(pc := if |got'| == N_OPTIONS then Submitting(got', since, closing)
                          else Reading(got', since, closing)))
    case Submitting(_, _, closing) => Put(s, c, cl.(pc := if closing then Gone else Idle))
    case _ => s
  }

  function Do(s: State, step: Step): State
    requires Enabled(s, step)
  {
    match step
    case Connect(c) => Put(s, c, Client(None, Idle))
    case Begin(c, command) => Put(s, c, BeginClient(s.clients[c], command))
    case Advance(c) => AdvanceClient(s, c)
  }

  ghost predicate Next(s: State, s': State) {
    exists step :: Enabled(s, step) && s' == Do(s, step)
  }

  ghost predicate Reachable(s: State) {
    Runs.Reachable(Init, Next, s)
  }

  // ---- Who contributes to a counter ----

  /** The connection's held vote for `o` has not been decremented yet. */
  predicate Holds(cl: Client, o: nat) {
    match cl.pc
    case Remove(prev, _) => prev == o
    case Assign(_) => false
    case Reading(_, _, closing) => !closing && cl.vote == Some(o)
    case Submitting(_, _, closing) => !closing && cl.vote == Some(o)
    case Gone => false
    case _ => cl.vote == Some(o)
  }

  /** The connection has incremented `o` but not yet made it its current vote. */
  predicate Raised(cl: Client, o: nat) {
    match cl.pc
    case Decrement(next) => next == o
    case Assign(next) => next == o
    case _ => false
  }

  function Holders(clients: map<nat, Client>, o: nat): set<nat> {
    set c | c in clients && Holds(clients[c], o)
  }

  function Raisers(clients: map<nat, Client>, o: nat): set<nat> {
    set c | c in clients && Raised(clients[c], o)
  }

  ghost predicate CountersAgree(s: State) {
    |s.counts| == N_OPTIONS &&
    forall o :: 0 <= o < N_OPTIONS ==> s.counts[o] == |Holders(s.clients, o)| + |Raisers(s.clients, o)|
  }

  /** A snapshot in progress is at most four loads long, was begun at a known number of
      `fetch_add`s, and equals the counters as long as no `fetch_add` came in between. An explicit
      withdrawal has already taken the vote out of `current_vote`; the clean-up has not. */
  predicate ClientFits(s: State, cl: Client) {
    match cl.pc
    case Reading(got, since, _) =>
      |got| < N_OPTIONS && since <= s.adds && |s.counts| == N_OPTIONS &&
      (since == s.adds ==> got == s.counts[..|got|])
    case Submitting(snap, since, _) =>
      |snap| == N_OPTIONS && since <= s.adds && (since == s.adds ==> snap == s.counts)
    case Remove(prev, closing) => cl.vote == if closing then Some(prev) else None
    case _ => true
  }

  ghost predicate Inv(s: State) {
    && CountersAgree(s)
    && forall c :: c in s.clients ==> ClientFits(s, s.clients[c])
  }

  // ---- Counter agreement is kept by every step ----

  /** Replacing one connection changes the two contributor counts by that connection alone. */
  lemma ContributorsUpdate(clients: map<nat, Client>, c: nat, cl: Client, o: nat)
    ensures |Holders(clients[c := cl], o)| ==
            |Holders(clients, o)| - Bit(c in clients && Holds(clients[c], o)) + Bit(Holds(cl, o))
    ensures |Raisers(clients[c := cl], o)| ==
            |Raisers(clients, o)| - Bit(c in clients && Raised(clients[c], o)) + Bit(Raised(cl, o))
  {
    SetUpdate(Holders(clients, o), Holders(clients[c := cl], o), c);
    SetUpdate(Raisers(clients, o), Raisers(clients[c := cl], o), c);
  }

  lemma CountersKept(s: State, step: Step)
    requires Inv(s) && Enabled(s, step)
    ensures CountersAgree(Do(s, step))
  {
    var s' := Do(s, step);
    forall o | 0 <= o < N_OPTIONS
      ensures s'.counts[o] == |Holders(s'.clients, o)| + |Raisers(s'.clients, o)|
    {
      ContributorsUpdate(s.clients, step.c, s'.clients[step.c], o);
      assert s'.clients == s.clients[step.c := s'.clients[step.c]];
      assert step.c in s.clients ==> ClientFits(s, s.clients[step.c]);
    }
  }

  lemma NonNegative(s: State)
    requires CountersAgree(s)
    ensures forall o :: 0 <= o < N_OPTIONS ==> 0 <= s.counts[o]
  {
  }

  lemma ClientsKept(s: State, step: Step)
    requires Inv(s) && Enabled(s, step)
    ensures forall c :: c in Do(s, step).clients ==> ClientFits(Do(s, step), Do(s, step).clients[c])
  {
    var s' := Do(s, step);
    forall c | c in s'.clients ensures ClientFits(s', s'.clients[c]) {
      if c != step.c {
        assert ClientFits(s, s.clients[c]);
        assert s'.adds == s.adds ==> s'.counts == s.counts;
      } else if c in s.clients {
        assert ClientFits(s, s.clients[c]);
      }
    }
  }

  lemma InvInit(s: State)
    requires Init(s)
    ensures Inv(s)
  {
  }

  lemma InvStep(s: State, step: Step)
    requires Inv(s) && Enabled(s, step)
    ensures Inv(Do(s, step))
  {
    CountersKept(s, step);
    ClientsKept(s, step);
  }

  lemma InvNext()
    ensures forall s, s' :: Inv(s) && Next(s, s') ==> Inv(s')
  {
    forall s, s' | Inv(s) && Next(s, s') ensures Inv(s') {
      var step :| Enabled(s, step) && s' == Do(s, step);
      InvStep(s, step);
    }
  }

  lemma ReachableInv(s: State)
    requires Reachable(s)
    ensures Inv(s)
  {
    InvNext();
    Runs.Always(Init, Next, Inv, s);
  }

  lemma ReachableStep(s: State, step: Step)
    requires Reachable(s) && Enabled(s, step)
    ensures Reachable(Do(s, step))
  {
    Runs.Extend(Init, Next, s, Do(s, step));
  }

  /** At most how many more steps the present command takes, its submission counted as one. */
  function StepsLeft(pc: Pc): nat {
    match pc
    case Increment(_) => 8
    case Decrement(_) => 7
    case Assign(_) => 6
    case Remove(_, _) => 6
    case Reading(got, _, _) => if |got| < N_OPTIONS then 5 - |got| else 1
    case Submitting(_, _, _) => 1
    case _ => 0
  }

  lemma StepsOn(v: State, id: nat)
    requires Enabled(v, Advance(id)) && ClientFits(v, v.clients[id])
    ensures id in Do(v, Advance(id)).clients
    ensures StepsLeft(Do(v, Advance(id)).clients[id].pc) < StepsLeft(v.clients[id].pc)
  {
  }

  // ---- Main results ----

  /** For every interleaving of any number of connections, each counter is the number of connections
      whose held vote is still counted there plus the number with an increment in flight. Hence it is
      never negative, the clamp of a load never acts, and it stays below twice the number of
      connections (so 500 connections never come near the ends of a 64-bit counter). */
  lemma CounterAgreement(s: State, o: nat)
    requires Reachable(s) && o < N_OPTIONS
    ensures |s.counts| == N_OPTIONS
    ensures s.counts[o] == |Holders(s.clients, o)| + |Raisers(s.clients, o)|
    ensures Clamped(s.counts[o]) == s.counts[o]
    ensures 0 <= s.counts[o] <= 2 * |s.clients|
  {
    ReachableInv(s);
    SubsetSize(Holders(s.clients, o), s.clients.Keys);
    SubsetSize(Raisers(s.clients, o), s.clients.Keys);
  }

  /** Connections that currently count towards some option in range. */
  function Voters(clients: map<nat, Client>): set<nat> {
    set c | c in clients && exists o :: 0 <= o < N_OPTIONS && Holds(clients[c], o)
  }

  function Lifters(clients: map<nat, Client>): set<nat> {
    set c | c in clients && exists o :: 0 <= o < N_OPTIONS && Raised(clients[c], o)
  }

  function Sum(v: seq<int>): int {
    if v == [] then 0 else Sum(v[..|v| - 1]) + v[|v| - 1]
  }

  /** At one instant the four counters add up to the settled in-range votes plus the increments in flight. */
  lemma InstantTotal(s: State)
    requires Reachable(s)
    ensures Sum(s.counts) == |Voters(s.clients)| + |Lifters(s.clients)|
  {
    ReachableInv(s);
    Sum4(s.counts);
    var cs := s.clients;
    VotersByOption(cs);
    LiftersByOption(cs);
    DisjointSizes(Holders(cs, 0), Holders(cs, 1), Holders(cs, 2), Holders(cs, 3));
    DisjointSizes(Raisers(cs, 0), Raisers(cs, 1), Raisers(cs, 2), Raisers(cs, 3));
  }

  lemma VotersByOption(cs: map<nat, Client>)
    ensures Voters(cs) == Holders(cs, 0) + Holders(cs, 1) + Holders(cs, 2) + Holders(cs, 3)
    ensures Holders(cs, 0) !! Holders(cs, 1) !! Holders(cs, 2) !! Holders(cs, 3)
  {
  }

  lemma LiftersByOption(cs: map<nat, Client>)
    ensures Lifters(cs) == Raisers(cs, 0) + Raisers(cs, 1) + Raisers(cs, 2) + Raisers(cs, 3)
    ensures Raisers(cs, 0) !! Raisers(cs, 1) !! Raisers(cs, 2) !! Raisers(cs, 3)
  {
  }

  lemma Sum4(v: seq<int>)
    requires |v| == 4
    ensures Sum(v) == v[0] + v[1] + v[2] + v[3]
  {
    var v3, v2, v1 := v[..3], v[..2], v[..1];
    assert v3[..2] == v2 && v2[..1] == v1 && v1[..0] == [];
    assert Sum(v3) == Sum(v2) + v[2];
    assert Sum(v2) == Sum(v1) + v[1];
  }

  /** With no vote in flight the counters are the tally of the current votes: every connection
      counts once, for the option it last chose, and connections that are gone count nowhere. */
  lemma SettledCounters(s: State, o: nat)
    requires Reachable(s) && o < N_OPTIONS
    requires forall c :: c in s.clients ==> s.clients[c].pc.Idle? || s.clients[c].pc.Gone?
    ensures |s.counts| == N_OPTIONS
    ensures s.counts[o] == |set c | c in s.clients && s.clients[c].pc.Idle? && s.clients[c].vote == Some(o)|
  {
    ReachableInv(s);
    assert Raisers(s.clients, o) == {};
    assert Holders(s.clients, o) == set c | c in s.clients && s.clients[c].pc.Idle? && s.clients[c].vote == Some(o);
  }
}
