/** The room object: the member map, the broadcast channel as an append-only log, and the throttle's fields. */
module Room {
  import opened Wrappers
  import T = Throttle
  import C = TimedThrottle

  datatype RoomEvent = Presence(id: nat, joined: bool) | Vote(entry: T.Entry) | Server

  /** The vote snapshots on the channel. */
  function VoteEntries(tx: seq<RoomEvent>): seq<T.Entry> {
    if tx == [] then []
    else
      var before := VoteEntries(tx[..|tx| - 1]);
      if tx[|tx| - 1].Vote? then before + [tx[|tx| - 1].entry] else before
  }

  lemma EntriesOfSend(tx: seq<RoomEvent>, event: RoomEvent)
    ensures VoteEntries(tx + [event]) == VoteEntries(tx) + if event.Vote? then [event.entry] else []
  {
    assert (tx + [event])[..|tx|] == tx;
  }

  class Room {
    var tx: seq<RoomEvent>
    var clients: map<nat, Option<string>>
    var lastVoteBroadcastMs: nat
    var pendingVoteBroadcast: Option<nat>
    var voteFlushScheduled: bool

    constructor ()
      ensures clients == map[] && tx == [] && View() == T.EMPTY
      ensures lastVoteBroadcastMs == 0 && pendingVoteBroadcast == None && !voteFlushScheduled
    {
      tx := [];
      clients := map[];
      lastVoteBroadcastMs := 0;
      pendingVoteBroadcast := None;
      voteFlushScheduled := false;
    }

    /** The part of the state the throttled broadcast works on. */
    ghost function View(): T.Shared
      reads this
    {
      T.Shared(lastVoteBroadcastMs, pendingVoteBroadcast, voteFlushScheduled, VoteEntries(tx))
    }

    method Join(id: nat) returns (count: nat)
      modifies this`clients, this`tx
      ensures clients == old(clients)[id := None] && tx == old(tx) + [Presence(id, true)]
      ensures count == if id in old(clients) then |old(clients)| else |old(clients)| + 1
      ensures View() == old(View())
    {
      clients := clients[id := None];
      count := |clients|;
      EntriesOfSend(tx, Presence(id, true));
      tx := tx + [Presence(id, true)];
    }

    method Leave(id: nat)
      modifies this`clients, this`tx
      ensures clients == old(clients) - {id} && tx == old(tx) + [Presence(id, false)]
      ensures View() == old(View())
    {
      clients := clients - {id};
      EntriesOfSend(tx, Presence(id, false));
      tx := tx + [Presence(id, false)];
    }

    /** Names a member; an id that is not (or no longer) a member is left out. */
    method SetNick(id: nat, name: string)
      modifies this`clients
      ensures clients.Keys == old(clients).Keys
      ensures forall c :: c in clients ==> clients[c] == if c == id then Some(name) else old(clients)[c]
    {
      if id in clients {
        clients := clients[id := Some(name)];
      }
    }

    /** Submission `k`, run without interruption at clock reading `now`; `later` is the second clock reading. `timer`
        is the sleep of the flusher it spawns, if any. */
    method BroadcastVoteThrottled(k: nat, now: nat, later: nat) returns (timer: Option<nat>)
      modifies this
      ensures clients == old(clients)
      ensures View() == C.SubmitNow(old(View()), k, now)
      ensures tx == old(tx) || exists e :: tx == old(tx) + [Vote(e)]
      ensures timer == if C.Schedules(old(View()), now) then Some(T.Delay(later, old(View()).last)) else None
    {
      var last := lastVoteBroadcastMs;
      if T.SaturatingSub(now, last) >= T.THROTTLE_MS {
        if lastVoteBroadcastMs == last {
          lastVoteBroadcastMs := now;
          var event := Vote(T.Entry(k, false, now, pendingVoteBroadcast.Some?));
          EntriesOfSend(tx, event);
          tx := tx + [event];
          return None;
        }
      }
      pendingVoteBroadcast := Some(k);
      timer := ScheduleVoteFlush(later);
    }

    method ScheduleVoteFlush(now: nat) returns (timer: Option<nat>)
      modifies this`voteFlushScheduled
      ensures voteFlushScheduled
      ensures timer == if old(voteFlushScheduled) then None else Some(T.Delay(now, lastVoteBroadcastMs))
    {
      var was := voteFlushScheduled;
      voteFlushScheduled := true;
      if was {
        return None;
      }
      var elapsed := T.SaturatingSub(now, lastVoteBroadcastMs);
      var delay := T.SaturatingSub(T.THROTTLE_MS, elapsed);
      return Some(if delay < 1 then 1 else delay);
    }

    /** A whole flush, run without interruption. */
    method FlushPendingVoteSnapshot(now: nat)
      modifies this
      ensures clients == old(clients)
      ensures View() == C.FlushNow(old(View()), now)
      ensures tx == old(tx) || exists e :: tx == old(tx) + [Vote(e)]
    {
      voteFlushScheduled := false;
      var pending := pendingVoteBroadcast;
      pendingVoteBroadcast := None;
      if pending.Some? {
        lastVoteBroadcastMs := now;
        var event := Vote(T.Entry(pending.value, true, now, false));
        EntriesOfSend(tx, event);
        tx := tx + [event];
      }
    }
  }
}
