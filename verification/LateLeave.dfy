/** A run in which a client hears a leave that its Welcome had counted already. */
module LateLeave {
  import opened Wrappers
  import opened Server
  import opened Replica
  import P = VoteProtocol
  import Runs

  const CAP: nat := 524288

  function Board(clients: map<nat, P.Client>): P.State {
    P.State([0, 0, 0, 0], 0, clients)
  }

  /** Connection 1 is in the map. */
  lemma FirstJoined() returns (s: State)
    ensures Reachable(s) && s.main.Accepting? && s.permits == 499 && s.nextId == 2 && s.cap == CAP
    ensures s.phases == map[1 := Joined(0, 1)] && s.members == map[1 := None]
    ensures s.log == [] && s.votes == Board(map[])
  {
    s := State(MAX_CONNECTIONS, 1, [], Accepting, map[], map[], [], CAP, Board(map[]));
    Runs.Start(Init, Next, s);
    s := Reach(s, Accept);
    s := Reach(s, Subscribe(1));
    s := Reach(s, Insert(1));
  }

  /** It is at its loop. */
  lemma FirstServed() returns (s: State)
    ensures Reachable(s) && s.main.Accepting? && s.permits == 499 && s.nextId == 2 && s.cap == CAP
    ensures s.phases == map[1 := Serving(Receiving(0))] && s.members == map[1 := None]
    ensures s.log == [Presence(1, true)] && s.votes == Board(map[1 := P.Client(None, P.Idle)])
  {
    s := FirstJoined();
    s := Reach(s, AnnounceJoin(1));
    s := Reach(s, Welcome(1, true));
  }

  /** It has hung up and left the map, but not announced it. */
  lemma FirstDeparted() returns (s: State)
    ensures Reachable(s) && s.main.Accepting? && s.permits == 499 && s.nextId == 2 && s.cap == CAP
    ensures s.phases == map[1 := Departed] && s.members == map[] && s.log == [Presence(1, true)]
  {
    s := FirstServed();
    s := Reach(s, Exit(1, true));
    s := Reach(s, Leave(1));
  }

  /** Connection 2 has been admitted and has subscribed. */
  lemma SecondSubscribed() returns (t: State)
    ensures Reachable(t) && t.cap == CAP && t.log == [Presence(1, true)] && t.members == map[]
    ensures t.phases == map[1 := Departed, 2 := Subscribed(1)]
  {
    t := FirstDeparted();
    t := Reach(t, Accept);
    t := Reach(t, Subscribe(2));
  }

  lemma TwoSteps(s: State, first: Step, second: Step)
    requires Enabled(s, first) && Enabled(Do(s, first), second)
    ensures Runs.Leads(Next, s, Do(Do(s, first), second))
  {
    Runs.Stay(Next, s);
    Runs.LeadsOn(Next, s, s, Do(s, first));
    Runs.LeadsOn(Next, s, Do(s, first), Do(Do(s, first), second));
  }

  /** The departure of connection 1 is announced between the insertion of connection 2 and its own announcement. */
  lemma AnnouncedLate(t: State) returns (s: State)
    requires t.phases == map[1 := Departed, 2 := Subscribed(1)] && t.members == map[] && t.log == [Presence(1, true)]
    ensures Runs.Leads(Next, Do(t, Insert(2)), s)
    ensures s.phases == map[1 := Finished(true), 2 := Phase.Announced(1, 1)] && s.members == map[2 := None]
    ensures s.log == [Presence(1, true), Presence(1, false), Presence(2, true)]
  {
    var s0 := Do(t, Insert(2));
    assert s0.phases == map[1 := Departed, 2 := Joined(1, 1)] && s0.members == map[2 := None];
    var s1 := Do(s0, AnnounceLeave(1));
    assert s1.phases == map[1 := Finished(true), 2 := Joined(1, 1)] && s1.members == map[2 := None];
    s := Do(s1, AnnounceJoin(2));
    TwoSteps(s0, AnnounceLeave(1), AnnounceJoin(2));
  }

  /** Drift and underflow do happen: connection 2 hears connection 1 leave after its own insertion. Its count goes from
      one to zero, where the title underflows, and once all is announced the title shows an empty room of one. */
  lemma LateLeaveHeard() returns (t: State, s: State)
    ensures Session(t, s, 2, 1) && NoneInFlight(s) && |t.members| == 0 && |s.members| == 1
    ensures s.log[1..] == [Presence(1, false), Presence(2, true)]
    ensures Title(Kept(1, s.log[1..][..1])) == None
    ensures Title(Kept(1, s.log[1..])) == Some(0)
  {
    t := SecondSubscribed();
    s := AnnouncedLate(t);
    KeptOfTwo(Presence(1, false), Presence(2, true), s.log[1..]);
  }

  lemma KeptOfTwo(a: Event, b: Event, events: seq<Event>)
    requires events == [a, b]
    ensures events[..1] == [a] && Kept(1, events[..1]) == Updated(1, a)
    ensures Kept(1, events) == Updated(Updated(1, a), b)
  {
    assert [a][..0] == [];
    assert events[..1] == [a];
  }
}
