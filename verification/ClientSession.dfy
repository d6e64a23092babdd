/** The HTTP client's pool of connections and the sessions that run over them, as a state machine
    driven by the outcomes of asynchronous operations. Headers and chunk lengths are taken to be
    readable, so that no handler throws. */
module ClientSession {
  import opened Sequences

  /** `id` stands for the identity of the connection object. */
  datatype Conn = Conn(id: nat, inUse: bool, reconnecting: bool, open: bool)

  /** The asynchronous operations of the client. */
  datatype Operation = Resolve | Connect | Write | Header | Body | UntilClosed | ChunkLine | ChunkData

  /** `pending` holds the operations that were started and have not ended. The counters are
      observations: how often the session reconnected, called its callback, and how many operations
      other than those of a chunked body it has seen the end of. */
  datatype Session = Session(conn: nat, pending: multiset<Operation>, reconnects: nat, callbacks: nat, ended: nat)

  /** How an operation ends; after a success, what the code goes on with: another operation, or
      the callback. */
  datatype Event = Failed | Succeeded(next: Next)

  datatype Next = Start(operation: Operation) | Finish

  /** `peak` is the largest number of sessions that were outstanding at once. */
  datatype State = State(pool: seq<Conn>, sessions: seq<Session>, nextId: nat, peak: nat)

  datatype Action = Request | Completion(session: nat, operation: Operation, event: Event)

  // ---------------------------------------------------------------- one session

  /** What a success of each operation may lead to. */
  predicate Possible(op: Operation, next: Next) {
    match op
    case Resolve => next == Start(Connect)
    case Connect => next == Start(Write)
    case Write => next == Start(Header)
    case Header => next == Start(Body) || next == Start(UntilClosed) || next == Start(ChunkLine) || next == Finish
    case Body => next == Finish
    case UntilClosed => next == Finish
    case ChunkLine => next == Start(ChunkData) || next == Start(ChunkLine) || next == Finish
    case ChunkData => next == Start(ChunkLine) || next == Finish
  }

  predicate InChunks(op: Operation) {
    op == ChunkLine || op == ChunkData
  }

  /** An operation is started. */
  function Begin(s: Session, op: Operation): Session {
    s.(pending := s.pending + multiset{op})
  }

  /** One occurrence of an operation has ended. */
  function End(s: Session, op: Operation): Session {
    s.(pending := s.pending - multiset{op}, ended := if InChunks(op) then s.ended else s.ended + 1)
  }

  /** `session->callback`. */
  function Fire(c: Conn, s: Session): (Conn, Session) {
    (c.(inUse := false), s.(callbacks := s.callbacks + 1))
  }

  /** `connect`: a socket that is still open is written to at once. */
  function ConnectOver(c: Conn, s: Session): (Conn, Session) {
    (c, Begin(s, if c.open then Write else Resolve))
  }

  /** What the success of an operation changes in the connection. */
  function Noted(c: Conn, op: Operation): Conn {
    match op
    case Connect => c.(open := true)
    case Header => c.(reconnecting := false)
    case _ => c
  }

  /** The handler of an operation. */
  function Handle(c: Conn, s: Session, op: Operation, e: Event): (Conn, Session) {
    match e
    case Succeeded(Start(next)) => (Noted(c, op), Begin(s, next))
    case Succeeded(Finish) => Fire(Noted(c, op), s)
    case Failed =>
      if op == Header && !c.reconnecting then
        ConnectOver(c.(reconnecting := true, open := false), s.(reconnects := s.reconnects + 1))
      else Fire(c.(open := false), s)
  }

  /** Only an operation that is pending can end, and only as its handler provides for. */
  predicate Deliverable(s: Session, op: Operation, e: Event) {
    op in s.pending && (e.Succeeded? ==> Possible(op, e.next))
  }

  function Advance(c: Conn, s: Session, op: Operation, e: Event): (Conn, Session) {
    if Deliverable(s, op, e) then Handle(c, End(s, op), op, e) else (c, s)
  }

  // ---------------------------------------------------------------- the pool

  /** The first position of the connection `id`, or -1. */
  function Position(pool: seq<Conn>, id: nat): (r: int)
    ensures -1 <= r < |pool|
    ensures r >= 0 ==> pool[r].id == id
    ensures forall i :: 0 <= i < (if r < 0 then |pool| else r) ==> pool[i].id != id
  {
    First(pool, (c: Conn) => c.id == id)
  }

  /** The sweep of `get_connection`: connections in use and the first idle one stay. */
  datatype Swept = Swept(kept: seq<Conn>, chosen: int)

  function Sweep(pool: seq<Conn>): (r: Swept)
    ensures -1 <= r.chosen < |r.kept| <= |pool|
  {
    if pool == [] then Swept([], -1)
    else
      var r, c := Sweep(pool[..|pool| - 1]), pool[|pool| - 1];
      if c.inUse then Swept(r.kept + [c], r.chosen)
      else if r.chosen < 0 then Swept(r.kept + [c], |r.kept|)
      else r
  }

  /** The pool with its chosen connection marked. */
  function Taken(r: Swept): seq<Conn>
    requires 0 <= r.chosen < |r.kept|
  {
    r.kept[r.chosen := r.kept[r.chosen].(reconnecting := false, inUse := true)]
  }

  function Acquire(pool: seq<Conn>, id: nat): (r: Swept)
    ensures 0 <= r.chosen < |r.kept|
  {
    var swept := Sweep(pool);
    var r := if swept.chosen < 0 then Swept(swept.kept + [Conn(id, false, false, false)], |swept.kept|) else swept;
    Swept(Taken(r), r.chosen)
  }

  // ---------------------------------------------------------------- the machine

  /** A session is outstanding until its callback was called. */
  predicate Live(s: Session) {
    s.callbacks == 0
  }

  function Outstanding(sessions: seq<Session>): nat {
    if sessions == [] then 0
    else Outstanding(sessions[..|sessions| - 1]) + (if Live(sessions[|sessions| - 1]) then 1 else 0)
  }

  function Max(a: nat, b: nat): nat {
    if a < b then b else a
  }

  function Open(st: State): State {
    var r := Acquire(st.pool, st.nextId);
    var c := r.kept[r.chosen];
    var sessions := st.sessions + [ConnectOver(c, Session(c.id, multiset{}, 0, 0, 0)).1];
    State(r.kept, sessions, st.nextId + 1, Max(st.peak, Outstanding(sessions)))
  }

  /** The handler reaches its connection through the session; a connection that left the pool is
      no longer followed. */
  function Complete(st: State, i: nat, op: Operation, e: Event): State
    requires i < |st.sessions|
  {
    var k := Position(st.pool, st.sessions[i].conn);
    if k < 0 then st
    else
      var r := Advance(st.pool[k], st.sessions[i], op, e);
      st.(pool := st.pool[k := r.0], sessions := st.sessions[i := r.1])
  }

  function Step(st: State, a: Action): State {
    match a
    case Request => Open(st)
    case Completion(i, op, e) => if i < |st.sessions| then Complete(st, i, op, e) else st
  }

  function Run(actions: seq<Action>): State {
    if actions == [] then State([], [], 0, 0)
    else Step(Run(actions[..|actions| - 1]), actions[|actions| - 1])
  }

  // ---------------------------------------------------------------- invariants

  predicate Early(op: Operation) {
    op == Resolve || op == Connect || op == Write || op == Header
  }

  /** How many operations have ended at most before this one, counted from the last connect. */
  function Rank(op: Operation): nat {
    match op
    case Resolve => 0
    case Connect => 1
    case Write => 2
    case Header => 3
    case _ => 4
  }

  /** What holds of a session by itself: one operation is pending or the callback was called, never
      both nor more than one of either. */
  ghost predicate SessionOk(s: Session) {
    && |s.pending| + s.callbacks == 1
    && s.reconnects <= 1
    && (forall op :: op in s.pending ==> s.ended <= 4 * s.reconnects + Rank(op))
    && s.ended <= 4 * s.reconnects + 5
  }

  /** What holds between an outstanding session and the connection it runs over. */
  ghost predicate Together(c: Conn, s: Session) {
    && c.inUse
    && (forall op :: op in s.pending && Early(op) ==> (c.reconnecting <==> s.reconnects == 1))
  }

  function InUse(pool: seq<Conn>): nat {
    if pool == [] then 0 else InUse(pool[..|pool| - 1]) + (if pool[|pool| - 1].inUse then 1 else 0)
  }

  ghost predicate DistinctIds(pool: seq<Conn>, limit: nat) {
    && (forall i :: 0 <= i < |pool| ==> pool[i].id < limit)
    && forall i, j :: 0 <= i < j < |pool| ==> pool[i].id != pool[j].id
  }

  /** Every outstanding session runs over a connection of the pool. */
  ghost predicate Attached(pool: seq<Conn>, sessions: seq<Session>) {
    forall i :: 0 <= i < |sessions| && Live(sessions[i]) ==>
      var k := Position(pool, sessions[i].conn); k >= 0 && Together(pool[k], sessions[i])
  }

  /** No two outstanding sessions run over the same connection. */
  ghost predicate Exclusive(sessions: seq<Session>) {
    forall i, j :: 0 <= i < j < |sessions| && Live(sessions[i]) && Live(sessions[j]) ==>
      sessions[i].conn != sessions[j].conn
  }

  ghost predicate AllOk(sessions: seq<Session>) {
    forall i :: 0 <= i < |sessions| ==> SessionOk(sessions[i])
  }

  ghost predicate Inv(st: State) {
    && DistinctIds(st.pool, st.nextId)
    && AllOk(st.sessions) && Attached(st.pool, st.sessions) && Exclusive(st.sessions)
    && InUse(st.pool) == Outstanding(st.sessions) <= |st.pool| <= st.peak
  }

  // ---------------------------------------------------------------- completions

  /** Of a session's pending operations there is only one, and none once it has ended. */
  lemma OnlyPending(s: Session, op: Operation)
    requires SessionOk(s) && op in s.pending
    ensures s.callbacks == 0 && End(s, op).pending == multiset{} && s.ended <= 4 * s.reconnects + Rank(op)
  {
    hide Rank;
    assert s.pending == (s.pending - multiset{op}) + multiset{op};
    assert |s.pending - multiset{op}| == 0;
  }

  lemma BeginsOne(s: Session, op: Operation)
    requires s.pending == multiset{}
    ensures Begin(s, op).pending == multiset{op} && |Begin(s, op).pending| == 1
    ensures forall o :: o in Begin(s, op).pending <==> o == op
  {
  }

  /** An operation is started when none is pending. */
  lemma BeginOk(c: Conn, s: Session, op: Operation)
    requires s.pending == multiset{} && s.callbacks == 0 && s.reconnects <= 1 && s.ended <= 4 * s.reconnects + Rank(op)
    requires c.inUse && (Early(op) ==> (c.reconnecting <==> s.reconnects == 1))
    ensures SessionOk(Begin(s, op)) && Together(c, Begin(s, op))
  {
    hide Begin, Early;
    BeginsOne(s, op);
    assert Begin(s, op) == s.(pending := Begin(s, op).pending) by { BeginFrame(s, op); }
  }

  lemma BeginFrame(s: Session, op: Operation)
    ensures Begin(s, op) == s.(pending := Begin(s, op).pending)
  {
  }

  lemma FireOk(c: Conn, s: Session)
    requires s.pending == multiset{} && s.callbacks == 0 && s.reconnects <= 1 && s.ended <= 4 * s.reconnects + 5
    ensures SessionOk(Fire(c, s).1) && !Live(Fire(c, s).1) && !Fire(c, s).0.inUse
  {
  }

  /** What the connection knows of the reconnect while `op` is pending. */
  predicate Consistent(c: Conn, s: Session, op: Operation) {
    c.inUse && (Early(op) ==> (c.reconnecting <==> s.reconnects == 1))
  }

  lemma HandleOk(c: Conn, s: Session, op: Operation, e: Event)
    requires s.pending == multiset{} && s.callbacks == 0 && s.reconnects <= 1 && Consistent(c, s, op)
    requires s.ended <= 4 * s.reconnects + Rank(op) + (if InChunks(op) then 0 else 1)
    requires e.Succeeded? ==> Possible(op, e.next)
    ensures var (d, t) := Handle(c, s, op, e);
      SessionOk(t) && d.id == c.id && t.conn == s.conn && if Live(t) then Together(d, t) else !d.inUse
  {
    hide SessionOk, Together, Begin;
    match e
    case Succeeded(Start(next)) =>
      BeginOk(Noted(c, op), s, next);
      BeginFrame(s, next);
    case Succeeded(Finish) =>
      FireOk(Noted(c, op), s);
    case Failed =>
      if op == Header && !c.reconnecting {
        var d, t := c.(reconnecting := true, open := false), s.(reconnects := s.reconnects + 1);
        BeginOk(d, t, Resolve);
        BeginFrame(t, Resolve);
      } else {
        FireOk(c.(open := false), s);
      }
  }

  lemma EndFrame(s: Session, op: Operation)
    ensures var t := End(s, op); t == s.(pending := t.pending, ended := s.ended + (if InChunks(op) then 0 else 1))
  {
  }

  /** One operation's end keeps what holds of the session and its connection; the connection is
      released exactly when the callback is called. */
  lemma AdvanceKeeps(c: Conn, s: Session, op: Operation, e: Event)
    requires SessionOk(s) && (Live(s) ==> Together(c, s))
    ensures var (d, t) := Advance(c, s, op, e);
      && SessionOk(t) && d.id == c.id && t.conn == s.conn
      && (Live(t) ==> Live(s) && Together(d, t))
      && (Live(s) && !Live(t) ==> !d.inUse)
      && (!Live(s) ==> (d, t) == (c, s))
  {
    if op in s.pending {
      assert Consistent(c, s, op) by { OnlyPending(s, op); }
      OnlyPending(s, op);
      hide Handle, Possible, Together, End, InChunks, SessionOk, Rank;
      EndFrame(s, op);
      if Deliverable(s, op, e) {
        HandleOk(c, End(s, op), op, e);
      }
    }
  }

  lemma {:induction false} InUseUpdate(pool: seq<Conn>, k: nat, c: Conn)
    requires k < |pool|
    ensures InUse(pool[k := c]) + (if pool[k].inUse then 1 else 0) == InUse(pool) + (if c.inUse then 1 else 0)
  {
    var n := |pool| - 1;
    if k < n {
      InUseUpdate(pool[..n], k, c);
      assert pool[k := c][..n] == pool[..n][k := c];
    } else {
      assert pool[k := c][..n] == pool[..n];
    }
  }

  lemma {:induction false} OutstandingUpdate(ss: seq<Session>, i: nat, s: Session)
    requires i < |ss|
    ensures Outstanding(ss[i := s]) + (if Live(ss[i]) then 1 else 0)
         == Outstanding(ss) + (if Live(s) then 1 else 0)
  {
    var n := |ss| - 1;
    if i < n {
      OutstandingUpdate(ss[..n], i, s);
      assert ss[i := s][..n] == ss[..n][i := s];
    } else {
      assert ss[i := s][..n] == ss[..n];
    }
  }

  lemma SamePosition(pool: seq<Conn>, k: nat, c: Conn, id: nat)
    requires k < |pool| && c.id == pool[k].id
    ensures Position(pool[k := c], id) == Position(pool, id)
  {
    PositionIs(pool, pool[k := c], id);
  }

  lemma PositionIs(p: seq<Conn>, q: seq<Conn>, id: nat)
    requires |p| == |q| && forall i :: 0 <= i < |p| ==> p[i].id == q[i].id
    ensures Position(p, id) == Position(q, id)
  {
    var k, l := Position(p, id), Position(q, id);
    assert k >= 0 ==> q[k].id == id;
    assert l >= 0 ==> p[l].id == id;
  }

  lemma CompleteAttached(pool: seq<Conn>, ss: seq<Session>, i: nat, c: Conn, s: Session)
    requires i < |ss| && Live(ss[i]) && Attached(pool, ss) && Exclusive(ss)
    requires Position(pool, ss[i].conn) >= 0 && c.id == ss[i].conn == s.conn
    requires Live(s) ==> Together(c, s)
    ensures Attached(pool[Position(pool, ss[i].conn) := c], ss[i := s]) && Exclusive(ss[i := s])
  {
    hide Position, Together;
    var k := Position(pool, ss[i].conn);
    var after, next := pool[k := c], ss[i := s];
    forall j | 0 <= j < |next| && Live(next[j])
      ensures var l := Position(after, next[j].conn); l >= 0 && Together(after[l], next[j])
    {
      SamePosition(pool, k, c, next[j].conn);
      if j != i {
        assert next[j] == ss[j] && ss[j].conn != ss[i].conn;
      }
    }
  }

  lemma CompleteKeeps(st: State, i: nat, op: Operation, e: Event)
    requires Inv(st) && i < |st.sessions|
    ensures Inv(Complete(st, i, op, e))
  {
    hide Advance, SessionOk, Together, InUse, Outstanding, Position, Attached, Exclusive, Live;
    var s := st.sessions[i];
    var k := Position(st.pool, s.conn);
    assert SessionOk(s);
    if Live(s) {
      AttachedAt(st, i);
      AdvanceKeeps(st.pool[k], s, op, e);
      var (d, t) := Advance(st.pool[k], s, op, e);
      TogetherInUse(st.pool[k], s);
      LiveInUse(d, t);
      InUseUpdate(st.pool, k, d);
      OutstandingUpdate(st.sessions, i, t);
      CompleteAttached(st.pool, st.sessions, i, d, t);
    } else if k >= 0 {
      AdvanceKeeps(st.pool[k], s, op, e);
      assert st.pool[k := st.pool[k]] == st.pool && st.sessions[i := s] == st.sessions;
    }
  }

  lemma LiveInUse(c: Conn, s: Session)
    ensures Live(s) && Together(c, s) ==> c.inUse
  {
  }

  lemma AttachedAt(st: State, i: nat)
    requires Inv(st) && i < |st.sessions| && Live(st.sessions[i])
    ensures var k := Position(st.pool, st.sessions[i].conn);
      k >= 0 && Together(st.pool[k], st.sessions[i])
  {
    hide Together, Position;
  }

  lemma TogetherInUse(c: Conn, s: Session)
    requires Together(c, s)
    ensures c.inUse
  {
  }

  // ---------------------------------------------------------------- requests

  lemma SweepLast(pool: seq<Conn>)
    requires pool != []
    ensures var r, c := Sweep(pool[..|pool| - 1]), pool[|pool| - 1];
      Sweep(pool) == if c.inUse then Swept(r.kept + [c], r.chosen)
                     else if r.chosen < 0 then Swept(r.kept + [c], |r.kept|) else r
  {
  }

  /** The connections the sweep keeps: those in use and at most the chosen one. */
  lemma {:induction false} SweepMembers(pool: seq<Conn>)
    ensures var r := Sweep(pool);
      && (forall i :: 0 <= i < |r.kept| ==> r.kept[i] in pool && (r.kept[i].inUse <==> i != r.chosen))
      && (forall c :: c in pool && c.inUse ==> c in r.kept)
  {
    if pool != [] {
      hide Sweep;
      SweepMembers(pool[..|pool| - 1]);
      SweepLast(pool);
      assert pool == pool[..|pool| - 1] + [pool[|pool| - 1]];
    }
  }

  lemma {:induction false} SweepDistinct(pool: seq<Conn>, limit: nat)
    requires DistinctIds(pool, limit)
    ensures DistinctIds(Sweep(pool).kept, limit)
  {
    if pool != [] {
      hide Sweep;
      var init, c := pool[..|pool| - 1], pool[|pool| - 1];
      SweepDistinct(init, limit);
      SweepLast(pool);
      SweepMembers(init);
      KeptApart(pool, Sweep(init).kept);
    }
  }

  lemma {:induction false} SweepInUse(pool: seq<Conn>)
    ensures InUse(Sweep(pool).kept) == InUse(pool)
  {
    if pool != [] {
      hide Sweep, InUse;
      SweepInUse(pool[..|pool| - 1]);
      SweepLast(pool);
      InUseLast(pool);
      InUseAppend(Sweep(pool[..|pool| - 1]).kept, pool[|pool| - 1]);
    }
  }

  lemma InUseLast(pool: seq<Conn>)
    requires pool != []
    ensures InUse(pool) == InUse(pool[..|pool| - 1]) + (if pool[|pool| - 1].inUse then 1 else 0)
  {
  }

  lemma InUseAppend(pool: seq<Conn>, c: Conn)
    ensures InUse(pool + [c]) == InUse(pool) + (if c.inUse then 1 else 0)
  {
    assert (pool + [c])[..|pool|] == pool;
  }

  lemma KeptApart(pool: seq<Conn>, kept: seq<Conn>)
    requires pool != [] && forall i, j :: 0 <= i < j < |pool| ==> pool[i].id != pool[j].id
    requires forall i :: 0 <= i < |kept| ==> kept[i] in pool[..|pool| - 1]
    ensures forall i :: 0 <= i < |kept| ==> kept[i].id != pool[|pool| - 1].id
  {
  }

  lemma {:induction false} AllInUse(pool: seq<Conn>)
    requires forall i :: 0 <= i < |pool| ==> pool[i].inUse
    ensures InUse(pool) == |pool|
  {
    if pool != [] {
      AllInUse(pool[..|pool| - 1]);
    }
  }

  /** After a request every connection of the pool is in use; those that were are untouched, and the
      one handed out was not. */
  lemma AcquireKeeps(pool: seq<Conn>, id: nat)
    requires DistinctIds(pool, id)
    ensures var r := Acquire(pool, id);
      && DistinctIds(r.kept, id + 1)
      && InUse(r.kept) == InUse(pool) + 1 == |r.kept|
      && (forall c :: c in pool && c.inUse ==> c in r.kept && c.id != r.kept[r.chosen].id)
      && r.kept[r.chosen].inUse && !r.kept[r.chosen].reconnecting
  {
    hide InUse, Sweep;
    SweepMembers(pool);
    SweepDistinct(pool, id);
    SweepInUse(pool);
    var swept := Sweep(pool);
    var created := Conn(id, false, false, false);
    InUseAppend(swept.kept, created);
    var r := if swept.chosen < 0 then Swept(swept.kept + [created], |swept.kept|) else swept;
    TakenKeeps(r, id + 1);
    forall c | c in pool && c.inUse
      ensures c in Taken(r) && c.id != r.kept[r.chosen].id
    {
      var j := IndexOf(swept.kept, c);
      assert r.kept[j] == c && j != r.chosen && Taken(r)[j] == c;
    }
  }

  lemma TakenKeeps(r: Swept, limit: nat)
    requires 0 <= r.chosen < |r.kept| && DistinctIds(r.kept, limit)
    requires forall i :: 0 <= i < |r.kept| ==> (r.kept[i].inUse <==> i != r.chosen)
    ensures DistinctIds(Taken(r), limit) && InUse(Taken(r)) == InUse(r.kept) + 1 == |r.kept|
  {
    hide InUse;
    InUseUpdate(r.kept, r.chosen, Taken(r)[r.chosen]);
    AllInUse(Taken(r));
  }

  lemma FoundAt(pool: seq<Conn>, limit: nat, c: Conn)
    requires DistinctIds(pool, limit) && c in pool
    ensures Position(pool, c.id) >= 0 && pool[Position(pool, c.id)] == c
  {
    var k, j := Position(pool, c.id), IndexOf(pool, c);
  }

  ghost function IndexOf(pool: seq<Conn>, c: Conn): (j: nat)
    requires c in pool
    ensures j < |pool| && pool[j] == c
  {
    var j :| 0 <= j < |pool| && pool[j] == c;
    j
  }

  lemma OutstandingAppend(ss: seq<Session>, s: Session)
    requires Live(s)
    ensures Outstanding(ss + [s]) == Outstanding(ss) + 1
  {
    assert (ss + [s])[..|ss|] == ss;
  }

  lemma OpenAttached(st: State, r: Swept, s: Session)
    requires Inv(st) && 0 <= r.chosen < |r.kept| && DistinctIds(r.kept, st.nextId + 1)
    requires forall c :: c in st.pool && c.inUse ==> c in r.kept && c.id != r.kept[r.chosen].id
    requires Live(s) && s.conn == r.kept[r.chosen].id && Together(r.kept[r.chosen], s)
    ensures Attached(r.kept, st.sessions + [s]) && Exclusive(st.sessions + [s])
  {
    hide Position, Together, InUse, Outstanding, DistinctIds, SessionOk;
    var next := st.sessions + [s];
    FoundAt(r.kept, st.nextId + 1, r.kept[r.chosen]);
    forall i | 0 <= i < |st.sessions| && Live(st.sessions[i])
      ensures st.sessions[i].conn != s.conn
      ensures var l := Position(r.kept, st.sessions[i].conn); l >= 0 && Together(r.kept[l], st.sessions[i])
    {
      AttachedAt(st, i);
      var c := st.pool[Position(st.pool, st.sessions[i].conn)];
      TogetherInUse(c, st.sessions[i]);
      FoundAt(r.kept, st.nextId + 1, c);
    }
    forall i | 0 <= i < |next| && Live(next[i])
      ensures var l := Position(r.kept, next[i].conn); l >= 0 && Together(r.kept[l], next[i])
    {
      assert i < |st.sessions| ==> next[i] == st.sessions[i];
    }
  }

  /** Right after a request the pool is no larger than the number of outstanding sessions. */
  lemma OpenKeeps(st: State)
    requires Inv(st)
    ensures Inv(Open(st)) && |Open(st).pool| == Outstanding(Open(st).sessions)
  {
    hide InUse, Acquire, Outstanding, Position, Attached, Exclusive, DistinctIds;
    AcquireKeeps(st.pool, st.nextId);
    var r := Acquire(st.pool, st.nextId);
    var c := r.kept[r.chosen];
    var s := ConnectOver(c, Session(c.id, multiset{}, 0, 0, 0)).1;
    OutstandingAppend(st.sessions, s);
    OpenAttached(st, r, s);
  }

  // ---------------------------------------------------------------- theorems

  /** For every sequence of requests and outcomes. */
  lemma {:induction false} Reachable(actions: seq<Action>)
    ensures Inv(Run(actions))
  {
    hide Inv, Step;
    if actions == [] {
      Initially();
    } else {
      Reachable(actions[..|actions| - 1]);
      StepKeeps(Run(actions[..|actions| - 1]), actions[|actions| - 1]);
    }
  }

  lemma Initially()
    ensures Inv(State([], [], 0, 0))
  {
  }

  lemma StepKeeps(st: State, a: Action)
    requires Inv(st)
    ensures Inv(Step(st, a))
  {
    hide Inv, Open, Complete;
    match a
    case Request => OpenKeeps(st);
    case Completion(i, op, e) => if i < |st.sessions| { CompleteKeeps(st, i, op, e); }
  }

  /** In every reachable state each session has either one operation pending or called its callback
      once; it reconnects at most once, and outside a chunked body at most nine operations end. */
  lemma CallbackExactlyOnce(actions: seq<Action>, i: nat)
    requires i < |Run(actions).sessions|
    ensures var s := Run(actions).sessions[i];
      |s.pending| + s.callbacks == 1 && s.reconnects <= 1 && s.ended <= 9
  {
    hide Run, Attached, Exclusive, DistinctIds, InUse, Outstanding;
    Reachable(actions);
    assert SessionOk(Run(actions).sessions[i]);
  }

  /** No connection is held by two outstanding sessions, every one that is held is in the pool, and
      the pool never outgrows the largest number of sessions outstanding at once. */
  lemma PoolIsExclusive(actions: seq<Action>)
    ensures var st := Run(actions);
      && (forall i, j :: 0 <= i < j < |st.sessions| && Live(st.sessions[i]) && Live(st.sessions[j]) ==>
            st.sessions[i].conn != st.sessions[j].conn)
      && (forall i :: 0 <= i < |st.sessions| && Live(st.sessions[i]) ==>
            exists k :: 0 <= k < |st.pool| && st.pool[k].id == st.sessions[i].conn && st.pool[k].inUse)
      && Outstanding(st.sessions) <= |st.pool| <= st.peak
  {
    hide Run, SessionOk, InUse, Outstanding, Position;
    Reachable(actions);
    var st := Run(actions);
    forall i | 0 <= i < |st.sessions| && Live(st.sessions[i])
      ensures exists k :: 0 <= k < |st.pool| && st.pool[k].id == st.sessions[i].conn && st.pool[k].inUse
    {
      AttachedAt(st, i);
      var k := Position(st.pool, st.sessions[i].conn);
      assert st.pool[k].id == st.sessions[i].conn;
    }
  }

  function Largest(actions: seq<Action>): nat {
    if actions == [] then 0
    else Max(Largest(actions[..|actions| - 1]), Outstanding(Run(actions).sessions))
  }

  /** `peak` is what its name says. */
  lemma {:induction false} PeakIsLargest(actions: seq<Action>)
    ensures Run(actions).peak == Largest(actions)
  {
    hide Outstanding, Acquire, Advance, Position;
    if actions != [] {
      var before, a := Run(actions[..|actions| - 1]), actions[|actions| - 1];
      PeakIsLargest(actions[..|actions| - 1]);
      Reachable(actions[..|actions| - 1]);
      match a
      case Request =>
      case Completion(i, op, e) =>
        if i < |before.sessions| {
          CompleteKeeps(before, i, op, e);
          assert Complete(before, i, op, e).peak == before.peak;
        }
    }
  }

  // ---------------------------------------------------------------- what a completion leads to

  /** In a step only the session that is completed and its connection change. */
  ghost predicate OnlyTouches(before: State, after: State, i: nat) {
    && |after.sessions| == |before.sessions| && |after.pool| == |before.pool|
    && (forall j :: 0 <= j < |before.sessions| && j != i ==> after.sessions[j] == before.sessions[j])
    && (forall k :: 0 <= k < |before.pool| ==>
          after.pool[k].id == before.pool[k].id
          && (i < |before.sessions| && before.pool[k].id != before.sessions[i].conn ==> after.pool[k] == before.pool[k]))
  }

  /** The connection of session `i`, which is in the pool while the session is outstanding. */
  ghost function ConnOf(st: State, i: nat): Conn
    requires Inv(st) && i < |st.sessions| && Live(st.sessions[i])
  {
    AttachedAt(st, i);
    st.pool[Position(st.pool, st.sessions[i].conn)]
  }

  /** The connection that was session `i`'s, after a step that has completed it. */
  ghost predicate Holds(before: State, after: State, i: nat, inUse: bool, reconnecting: bool, open: bool)
    requires i < |before.sessions|
  {
    exists k :: 0 <= k < |after.pool| && after.pool[k] == Conn(before.sessions[i].conn, inUse, reconnecting, open)
  }

  /** The same, whatever it knows of a reconnect. */
  ghost predicate HoldsAny(before: State, after: State, i: nat, inUse: bool, open: bool)
    requires i < |before.sessions|
  {
    exists r: bool :: Holds(before, after, i, inUse, r, open)
  }

  lemma PendingOne(st: State, i: nat, op: Operation)
    requires Inv(st) && i < |st.sessions| && op in st.sessions[i].pending
    ensures var s := st.sessions[i];
      Live(s) && s.pending == multiset{op} && s.reconnects <= 1 && s.callbacks == 0
      && ConnOf(st, i).inUse && (Early(op) ==> (ConnOf(st, i).reconnecting <==> s.reconnects == 1))
  {
    hide Attached, Exclusive, DistinctIds, InUse, Outstanding, Position;
    var s := st.sessions[i];
    assert SessionOk(s);
    OnlyPending(s, op);
    AttachedAt(st, i);
    assert s.pending == End(s, op).pending + multiset{op};
  }

  /** What a completion of a pending operation does, told through the handler. */
  lemma CompletionEffect(st: State, i: nat, op: Operation, e: Event)
    requires Inv(st) && i < |st.sessions| && op in st.sessions[i].pending && (e.Succeeded? ==> Possible(op, e.next))
    ensures var t := Step(st, Completion(i, op, e));
      var (d, s) := Handle(ConnOf(st, i), End(st.sessions[i], op), op, e);
      && OnlyTouches(st, t, i) && t.sessions[i] == s && exists k :: 0 <= k < |t.pool| && t.pool[k] == d
  {
    hide Handle, Attached, Exclusive, InUse, Outstanding, Position, SessionOk, Together, Possible, End;
    PendingOne(st, i, op);
    AttachedAt(st, i);
    var k := Position(st.pool, st.sessions[i].conn);
    HandleFrame(st.pool[k], End(st.sessions[i], op), op, e);
    EndFrame(st.sessions[i], op);
    var t := Step(st, Completion(i, op, e));
    assert t.pool[k] == Handle(ConnOf(st, i), End(st.sessions[i], op), op, e).0;
  }

  lemma HandleFrame(c: Conn, s: Session, op: Operation, e: Event)
    ensures Handle(c, s, op, e).0.id == c.id && Handle(c, s, op, e).1.conn == s.conn
  {
  }

  /** In every reachable state a header that cannot be read makes the session reconnect the first
      time: its connection stays in use and is closed, and it starts over by resolving. The second
      time the callback is called and the connection, closed, is released. */
  lemma LostHeader(actions: seq<Action>, i: nat)
    requires i < |Run(actions).sessions| && Header in Run(actions).sessions[i].pending
    ensures var before, after := Run(actions), Run(actions + [Completion(i, Header, Failed)]);
      var s, t := before.sessions[i], after.sessions[i];
      && OnlyTouches(before, after, i) && s.reconnects <= 1
      && (s.reconnects == 0 ==>
            t.reconnects == 1 && t.callbacks == 0 && t.pending == multiset{Resolve}
            && Holds(before, after, i, true, true, false))
      && (s.reconnects == 1 ==>
            t.reconnects == 1 && t.callbacks == 1 && t.pending == multiset{}
            && Holds(before, after, i, false, true, false))
  {
    hide Inv, Step, Complete, OnlyTouches, Position;
    Reachable(actions);
    NextAction(actions, Completion(i, Header, Failed));
    PendingOne(Run(actions), i, Header);
    CompletionEffect(Run(actions), i, Header, Failed);
    ConnIs(Run(actions), i);
  }

  /** Any other operation that fails ends the session at once: the callback is called, the connection
      is closed and released. */
  lemma OtherFailure(actions: seq<Action>, i: nat, op: Operation)
    requires i < |Run(actions).sessions| && op in Run(actions).sessions[i].pending && op != Header
    ensures var before, after := Run(actions), Run(actions + [Completion(i, op, Failed)]);
      var s, t := before.sessions[i], after.sessions[i];
      && OnlyTouches(before, after, i)
      && t.reconnects == s.reconnects && t.callbacks == 1 && t.pending == multiset{}
      && HoldsAny(before, after, i, false, false)
  {
    hide Inv, Step, Complete, OnlyTouches, Position;
    Reachable(actions);
    NextAction(actions, Completion(i, op, Failed));
    PendingOne(Run(actions), i, op);
    CompletionEffect(Run(actions), i, op, Failed);
    ConnIs(Run(actions), i);
    assert Holds(Run(actions), Run(actions + [Completion(i, op, Failed)]), i, false, ConnOf(Run(actions), i).reconnecting, false);
  }

  /** An operation that succeeds is followed by the next one over the same connection, or by the
      callback, which releases the connection as open as it is. */
  lemma OperationSucceeds(actions: seq<Action>, i: nat, op: Operation, next: Next)
    requires i < |Run(actions).sessions| && op in Run(actions).sessions[i].pending && Possible(op, next)
    ensures var before, after := Run(actions), Run(actions + [Completion(i, op, Succeeded(next))]);
      var s, t := before.sessions[i], after.sessions[i];
      && OnlyTouches(before, after, i) && t.reconnects == s.reconnects
      && (next == Finish ==> t.callbacks == 1 && t.pending == multiset{})
      && (next != Finish ==> t.callbacks == 0 && t.pending == multiset{next.operation})
      && (HoldsAny(before, after, i, next != Finish, true) || HoldsAny(before, after, i, next != Finish, false))
      && (op == Connect ==> HoldsAny(before, after, i, next != Finish, true))
  {
    hide Inv, Step, Complete, OnlyTouches, Position, Possible;
    Reachable(actions);
    NextAction(actions, Completion(i, op, Succeeded(next)));
    PendingOne(Run(actions), i, op);
    CompletionEffect(Run(actions), i, op, Succeeded(next));
    ConnIs(Run(actions), i);
    var d := Noted(ConnOf(Run(actions), i), op);
    assert Holds(Run(actions), Run(actions + [Completion(i, op, Succeeded(next))]), i, next != Finish, d.reconnecting, d.open);
  }

  lemma ConnIs(st: State, i: nat)
    requires Inv(st) && i < |st.sessions| && Live(st.sessions[i])
    ensures ConnOf(st, i).id == st.sessions[i].conn && ConnOf(st, i).inUse
  {
    hide Attached, Exclusive, DistinctIds, InUse, Outstanding, SessionOk;
    AttachedAt(st, i);
    TogetherInUse(ConnOf(st, i), st.sessions[i]);
  }

  lemma NextAction(actions: seq<Action>, a: Action)
    ensures Run(actions + [a]) == Step(Run(actions), a)
  {
    hide Step;
    assert (actions + [a])[..|actions|] == actions;
  }

  // ---------------------------------------------------------------- what a request starts

  /** `k` is the first idle connection. */
  ghost predicate FirstIdle(pool: seq<Conn>, k: nat) {
    k < |pool| && !pool[k].inUse && forall j :: 0 <= j < k ==> pool[j].inUse
  }

  lemma {:induction false} SweepFindsNone(pool: seq<Conn>)
    ensures Sweep(pool).chosen < 0 <==> forall c :: c in pool ==> c.inUse
  {
    if pool != [] {
      hide Sweep;
      SweepFindsNone(pool[..|pool| - 1]);
      SweepLast(pool);
      assert pool == pool[..|pool| - 1] + [pool[|pool| - 1]];
    }
  }

  lemma {:induction false} SweepChooses(pool: seq<Conn>) returns (k: nat)
    requires Sweep(pool).chosen >= 0
    ensures FirstIdle(pool, k) && Sweep(pool).kept[Sweep(pool).chosen] == pool[k]
  {
    hide Sweep;
    SweepFindsNone(pool);
    var init, c := pool[..|pool| - 1], pool[|pool| - 1];
    SweepLast(pool);
    if Sweep(init).chosen >= 0 {
      k := SweepChooses(init);
      assert init[k] == pool[k] && forall j :: 0 <= j < k ==> pool[j] == init[j];
    } else {
      SweepFindsNone(init);
      k := |init|;
      assert forall j :: 0 <= j < k ==> pool[j] == init[j] && init[j] in init;
    }
  }

  /** A request uses the first idle connection again, as open or closed as it is, and makes a new one,
      closed, exactly when none is idle. */
  lemma AcquireReuses(pool: seq<Conn>, id: nat)
    ensures var r := Acquire(pool, id); var c := r.kept[r.chosen];
      && c.inUse && !c.reconnecting
      && ((forall d :: d in pool ==> d.inUse) ==> c.id == id && !c.open)
      && (!(forall d :: d in pool ==> d.inUse) ==> exists k: nat :: FirstIdle(pool, k) && c.id == pool[k].id && c.open == pool[k].open)
  {
    hide Sweep;
    SweepFindsNone(pool);
    if Sweep(pool).chosen >= 0 {
      var k := SweepChooses(pool);
    }
  }

  /** The new session writes at once over a connection that is open, and resolves first otherwise. */
  lemma RequestStarts(actions: seq<Action>)
    ensures var before, after := Run(actions), Run(actions + [Request]);
      var s := after.sessions[|before.sessions|];
      && |after.sessions| == |before.sessions| + 1 && after.sessions[..|before.sessions|] == before.sessions
      && s.callbacks == 0 && s.reconnects == 0
      && exists c :: c in after.pool && c.id == s.conn && c.inUse && s.pending == multiset{if c.open then Write else Resolve}
  {
    hide Acquire, Outstanding;
    NextAction(actions, Request);
    var before := Run(actions);
    var r := Acquire(before.pool, before.nextId);
    AcquireReuses(before.pool, before.nextId);
    var c := r.kept[r.chosen];
    assert c in Run(actions + [Request]).pool;
  }
}
