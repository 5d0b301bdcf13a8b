/** The state the accept loop keeps: permits, the next id and the handles of running tasks. */
module AcceptLoop {
  import opened Wrappers
  import S = Server

  class AcceptLoop {
    var permits: nat
    var nextId: nat
    var handles: seq<nat>

    constructor ()
      ensures permits == S.MAX_CONNECTIONS == 500 && nextId == 1 && handles == []
    {
      permits := S.MAX_CONNECTIONS;
      nextId := 1;
      handles := [];
    }

    /** The loop's fields are those of the server state. */
    ghost predicate Mirrors(s: S.State)
      reads this
    {
      permits == s.permits && nextId == s.nextId && handles == s.handles
    }

    /** Admits a connection if a permit is free and reaps the handles of finished tasks; otherwise the connection is
        turned away and nothing changes. `s` is the server state the loop runs in. */
    method Accept(finished: set<nat>, ghost s: S.State) returns (admitted: Option<nat>)
      requires Mirrors(s) && s.main.Accepting? && s.nextId !in s.phases
      requires forall h :: h in finished <==> S.HasFinished(s.phases, h)
      modifies this
      ensures admitted.Some? <==> s.permits > 0
      ensures admitted.Some? ==> admitted.value == s.nextId && Mirrors(S.Do(s, S.Accept))
      ensures admitted.None? ==> S.Enabled(s, S.Reject) && Mirrors(S.Do(s, S.Reject))
    {
      if permits == 0 {
        return None;
      }
      permits := permits - 1;
      var id := nextId;
      nextId := nextId + 1;
      handles := handles + [id];
      ghost var phases := s.phases[id := S.Spawned];
      ghost var all := handles;
      var kept: seq<nat> := [];
      var i := 0;
      while i < |handles|
        invariant i <= |handles| && handles == all && permits == s.permits - 1 && nextId == s.nextId + 1
        invariant kept + S.Retain(all[i..], phases) == S.Retain(all, phases)
      {
        assert all[i..][1..] == all[i + 1..];
        if handles[i] !in finished {
          kept := kept + [handles[i]];
        }
        i := i + 1;
      }
      handles := kept;
      return Some(id);
    }
  }
}
