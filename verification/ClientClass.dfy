/** The client as an object: `get_connection` sweeps its list in place, and each completion handler
    does what the state machine of `ClientSession` says. */
module ClientClass {
  import opened Sequences
  import opened ClientSession

  lemma SweptOne(pool: seq<Conn>, done: nat)
    requires done < |pool|
    ensures var r, c := Sweep(pool[..done]), pool[done];
      Sweep(pool[..done + 1]) == if c.inUse then Swept(r.kept + [c], r.chosen)
                                 else if r.chosen < 0 then Swept(r.kept + [c], |r.kept|) else r
  {
    assert pool[..done + 1][..done] == pool[..done];
  }

  lemma SweptNone(pool: seq<Conn>)
    ensures Sweep(pool[..0]) == Swept([], -1)
  {
  }

  class Client {
    var connections: seq<Conn>
    var sessions: seq<Session>
    var nextId: nat
    ghost var peak: nat

    ghost function View(): State
      reads this
    {
      State(connections, sessions, nextId, peak)
    }

    constructor ()
      ensures View() == Run([])
    {
      connections, sessions, nextId, peak := [], [], 0, 0;
    }

    /** Keeps the connections in use and one idle one, erasing the other idle ones; -1 if none is idle. */
    method SweepConnections() returns (chosen: int)
      modifies this`connections
      ensures Swept(connections, chosen) == Sweep(old(connections))
    {
      hide Sweep, Erase;
      ghost var pool := connections;
      ghost var kept: seq<Conn>, rest: seq<Conn>, done := [], connections, 0;
      chosen := -1;
      var i := 0;
      SweptNone(pool);
      assert kept + rest == connections;
      while i < |connections|
        invariant connections == kept + rest && i == |kept|
        invariant done + |rest| == |pool| && rest == pool[done..]
        invariant Sweep(pool[..done]) == Swept(kept, chosen)
        decreases |connections| - i
      {
        Advanced(pool, done);
        AtIterator(kept, rest);
        SweptOne(pool, done);
        var c := connections[i];
        if c.inUse {
          kept := kept + [c];
          i := i + 1;
        } else if chosen < 0 {
          chosen := i;
          kept := kept + [c];
          i := i + 1;
        } else {
          connections := Erase(connections, i);
        }
        rest, done := rest[1..], done + 1;
      }
      assert pool[..done] == pool && kept == connections;
    }

    /** `get_connection`. */
    method GetConnection() returns (at: nat)
      modifies this`connections, this`nextId
      ensures Swept(connections, at) == Acquire(old(connections), old(nextId)) && nextId == old(nextId) + 1
    {
      hide Sweep;
      var chosen := SweepConnections();
      if chosen < 0 {
        chosen := |connections|;
        connections := connections + [Conn(nextId, false, false, false)];
      }
      nextId := nextId + 1;
      connections := connections[chosen := connections[chosen].(reconnecting := false, inUse := true)];
      return chosen;
    }

    method Request()
      modifies this
      ensures View() == Open(old(View()))
    {
      hide Acquire, Outstanding;
      var k := GetConnection();
      var i := |sessions|;
      sessions := sessions + [Session(connections[k].id, multiset{}, 0, 0, 0)];
      ConnectSession(k, i);
      assert sessions == old(sessions) + [sessions[i]];
      peak := Max(peak, Outstanding(sessions));
    }

    ghost predicate Has(k: nat, i: nat)
      reads this
    {
      k < |connections| && i < |sessions|
    }

    /** Only the connection `k` and the session `i` changed, into the pair `r`. */
    twostate predicate Became(k: nat, i: nat, r: (Conn, Session))
      requires old(Has(k, i))
      reads this
    {
      View() == old(View()).(pool := old(connections)[k := r.0], sessions := old(sessions)[i := r.1])
    }

    /** An asynchronous operation is handed to the event loop. */
    method Launch(k: nat, i: nat, op: Operation)
      requires Has(k, i)
      modifies this`sessions
      ensures Became(k, i, (old(connections[k]), Begin(old(sessions[i]), op)))
    {
      sessions := sessions[i := sessions[i].(pending := sessions[i].pending + multiset{op})];
    }

    method ConnectSession(k: nat, i: nat)
      requires Has(k, i)
      modifies this`sessions
      ensures Became(k, i, ConnectOver(old(connections[k]), old(sessions[i])))
    {
      if !connections[k].open {
        Launch(k, i, Resolve);
      } else {
        Launch(k, i, Write);
      }
    }

    method Callback(k: nat, i: nat)
      requires Has(k, i)
      modifies this`connections, this`sessions
      ensures Became(k, i, Fire(old(connections[k]), old(sessions[i])))
    {
      connections := connections[k := connections[k].(inUse := false)];
      sessions := sessions[i := sessions[i].(callbacks := sessions[i].callbacks + 1)];
    }

    method Close(k: nat, i: nat)
      requires Has(k, i)
      modifies this`connections
      ensures Became(k, i, (old(connections[k]).(open := false), old(sessions[i])))
    {
      connections := connections[k := connections[k].(open := false)];
    }

    /** An operation other than reading the header failed. */
    method GiveUp(k: nat, i: nat)
      requires Has(k, i)
      modifies this`connections, this`sessions
      ensures Became(k, i, Fire(old(connections[k]).(open := false), old(sessions[i])))
    {
      Close(k, i);
      Callback(k, i);
    }

    method GoOn(k: nat, i: nat, next: Next)
      requires Has(k, i)
      modifies this`connections, this`sessions
      ensures Became(k, i, if next == Finish then Fire(old(connections[k]), old(sessions[i]))
                           else (old(connections[k]), Begin(old(sessions[i]), next.operation)))
    {
      match next
      case Finish => Callback(k, i);
      case Start(op) => Launch(k, i, op);
    }

    /** The handler of `read`'s header: what was received decides what is waited for next. */
    method HeaderRead(k: nat, i: nat, e: Event)
      requires Has(k, i)
      modifies this`connections, this`sessions
      ensures Became(k, i, Handle(old(connections[k]), old(sessions[i]), Header, e))
    {
      match e {
        case Succeeded(next) =>
          connections := connections[k := connections[k].(reconnecting := false)];
          GoOn(k, i, next);
        case Failed =>
          if !connections[k].reconnecting {
            connections := connections[k := connections[k].(reconnecting := true)];
            Close(k, i);
            sessions := sessions[i := sessions[i].(reconnects := sessions[i].reconnects + 1)];
            ConnectSession(k, i);
          } else {
            GiveUp(k, i);
          }
      }
    }

    /** The handlers of every other operation. */
    method OtherDone(k: nat, i: nat, op: Operation, e: Event)
      requires Has(k, i) && op != Header
      modifies this`connections, this`sessions
      ensures Became(k, i, Handle(old(connections[k]), old(sessions[i]), op, e))
    {
      match e {
        case Succeeded(next) =>
          if op == Connect {
            connections := connections[k := connections[k].(open := true)];
          }
          GoOn(k, i, next);
        case Failed =>
          GiveUp(k, i);
      }
    }

    /** The event loop delivers the end of a pending operation. */
    method Deliver(i: nat, op: Operation, e: Event)
      requires i < |sessions|
      modifies this`connections, this`sessions
      ensures View() == Complete(old(View()), i, op, e)
    {
      hide Position;
      var k := Position(connections, sessions[i].conn);
      if k < 0 {
        return;
      }
      if !Deliverable(sessions[i], op, e) {
        assert connections[k := connections[k]] == connections && sessions[i := sessions[i]] == sessions;
        return;
      }
      sessions := sessions[i := End(sessions[i], op)];
      if op == Header {
        HeaderRead(k, i, e);
      } else {
        OtherDone(k, i, op, e);
      }
    }
  }
}
