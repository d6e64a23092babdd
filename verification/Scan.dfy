/** What one scan of an unchanging host guarantees: it finds every service it will ever find, it
    lists every selected socket of a live main process, and it adopts children. */
module Scan {
  import opened ServiceModel
  import opened SocketMerge
  import opened Ownership
  import opened OwnershipRuns

  // ---------------------------------------------------------------- settled services

  /** The descriptors recorded for a process are those the host shows, when it shows any. */
  ghost predicate Recorded(m: Proc, os: Os) {
    m.pid in os.fds ==> m.fds == Dedup(os.fds[m.pid])
  }

  ghost predicate Covered(sockets: seq<Sock>, m: Proc, table: seq<Sock>) {
    forall k :: k in table && k.id in m.fds ==> HasSource(sockets, Source(k))
  }

  ghost predicate SettledMain(s: Svc, m: Proc, env: Env) {
    Recorded(m, env.os) && Covered(s.sockets, m, env.table)
  }

  ghost predicate SettledService(s: Svc, done: set<nat>, env: Env) {
    forall m :: m in s.mains && m.pid in done ==> SettledMain(s, m, env)
  }

  /** A process no scan makes a service of: black-listed, or without a selected socket. */
  ghost predicate Idle(pid: nat, env: Env) {
    var p := NewProc(pid, env.os);
    Listed(p, env.rules) || forall k :: k in env.table ==> k.id !in Refresh(p, env.os).fds
  }

  ghost predicate Settled(ss: seq<Svc>, done: set<nat>, env: Env) {
    && (forall i :: 0 <= i < |ss| ==> SettledService(ss[i], done, env))
    && (forall x :: x in done ==> Known(ss, x) || Idle(x, env))
  }

  // ---------------------------------------------------------------- where main processes come from

  lemma AddMainMembers(s: Svc, p: Proc, os: Os)
    ensures forall m :: m in AddMain(s, p, os).mains ==> m in s.mains || m == p
  {
    IndependentMembers(s.mains, p.pid, os);
  }

  lemma {:induction false} IndependentMembers(mains: seq<Proc>, pid: nat, os: Os)
    ensures forall m :: m in Independent(mains, pid, os) ==> m in mains
  {
    if mains != [] {
      IndependentMembers(mains[..|mains| - 1], pid, os);
    }
  }

  lemma {:induction false} MergeMainsMembers(s: Svc, ps: seq<Proc>, os: Os)
    ensures forall m :: m in MergeMains(s, ps, os).mains ==> m in s.mains || m in ps
  {
    hide UpdateMain;
    if ps != [] {
      MergeMainsMembers(s, ps[..|ps| - 1], os);
      UpdateMainMembers(MergeMains(s, ps[..|ps| - 1], os), ps[|ps| - 1], os);
    }
  }

  lemma UpdateMainMembers(s: Svc, p: Proc, os: Os)
    ensures forall m :: m in UpdateMain(s, p, os).mains ==> m in s.mains || m == p
  {
    hide AddMain;
    AddMainMembers(EraseDead(s, p.path, os), p, os);
  }

  lemma CoveredGrows(a: seq<Sock>, b: seq<Sock>, m: Proc, table: seq<Sock>)
    requires Covered(a, m, table) && forall source :: HasSource(a, source) ==> HasSource(b, source)
    ensures Covered(b, m, table)
  {
    hide Source, HasSource;
  }

  lemma UpdateFromSettled(s: Svc, src: Svc, done: set<nat>, env: Env)
    requires SettledService(s, done, env) && SettledService(src, done, env)
    ensures SettledService(UpdateFrom(s, src, env.os), done, env)
  {
    hide Source, HasSource, UpdateFrom, Recorded, Covered;
    var t := UpdateFrom(s, src, env.os);
    forall source
      ensures HasSource(t.sockets, source) <==> HasSource(s.sockets, source) || HasSource(src.sockets, source)
    {
      UpdateFromHas(s, src, env.os, source);
    }
    UpdateFromMembers(s, src, env.os);
    forall m | m in t.mains && m.pid in done
      ensures SettledMain(t, m, env)
    {
      var from := if m in s.mains then s else src;
      assert SettledMain(from, m, env);
      CoveredGrows(from.sockets, t.sockets, m, env.table);
    }
  }

  lemma UpdateFromMembers(s: Svc, src: Svc, os: Os)
    ensures forall m :: m in UpdateFrom(s, src, os).mains ==> m in s.mains || m in src.mains
  {
    hide MergeMains, MergeSockets;
    MergeMainsMembers(s, src.mains, os);
    SocketsFrame(MergeMains(s, src.mains, os), src.sockets);
  }

  lemma AddServiceSettled(ss: seq<Svc>, serv: Svc, done: set<nat>, env: Env)
    requires forall i :: 0 <= i < |ss| ==> SettledService(ss[i], done, env)
    requires SettledService(serv, done, env)
    ensures var tt := AddService(ss, serv, env);
      forall i :: 0 <= i < |tt| ==> SettledService(tt[i], done, env)
  {
    hide AddService, UpdateFrom, Recorded, Covered;
    var add, tt := Rename(serv, env.enhance(serv)), AddService(ss, serv, env);
    assert SettledService(add, done, env) by {
      assert forall m :: m in add.mains && m.pid in done ==> SettledMain(serv, m, env);
    }
    AddServiceCases(ss, serv, env);
    if tt != ss + [add] {
      var i :| 0 <= i < |ss| && tt == ss[i := UpdateFrom(ss[i], add, env.os)];
      UpdateFromSettled(ss[i], add, done, env);
    }
  }

  // ---------------------------------------------------------------- a visit settles its process

  lemma {:induction false} AddHeldCovers(s: Svc, table: seq<Sock>, os: Os, k: Sock)
    requires k in table && HaveSocket(s, k.id, os)
    ensures HasSource(AddHeld(s, table, os).sockets, Source(k))
  {
    hide Source, HasSource, SetSocket;
    var init, last := table[..|table| - 1], table[|table| - 1];
    var t := AddHeld(s, init, os);
    AddHeldFrame(s, init, os);
    SetSocketHas(t, last, Source(k));
    if last != k {
      AddHeldCovers(s, init, os, k);
    }
  }

  /** After the sockets a service holds were added, its live main processes are covered. */
  lemma HeldIsCovered(s: Svc, m: Proc, env: Env)
    requires m in s.mains && m.pid in env.os.alive
    ensures Covered(AddHeld(s, env.table, env.os).sockets, m, env.table)
  {
    hide Source, HasSource, AddHeld;
    forall k | k in env.table && k.id in m.fds
      ensures HasSource(AddHeld(s, env.table, env.os).sockets, Source(k))
    {
      AddHeldCovers(s, env.table, env.os, k);
    }
  }

  lemma RefreshedMain(s: Svc, pid: nat, os: Os, m: Proc)
    requires Unique(s) && pid != 0 && m in RefreshIn(s, pid, os).mains
    ensures m.pid != pid ==> m in s.mains
    ensures m.pid == pid ==> Recorded(m, os) && exists m0 :: m0 in s.mains && m0.pid == pid && m == Refresh(m0, os)
  {
    var i := PidIndex(s.mains, pid);
    var t := RefreshIn(s, pid, os);
    var j :| 0 <= j < |t.mains| && t.mains[j] == m;
    assert i >= 0 && j != i ==> s.mains[j].pid != s.mains[i].pid;
  }

  lemma UpdateSettles(s: Svc, pid: nat, done: set<nat>, env: Env)
    requires Unique(s) && pid != 0 && pid in env.os.alive && SettledService(s, done, env)
    ensures SettledService(AddHeld(RefreshIn(s, pid, env.os), env.table, env.os), done + {pid}, env)
  {
    hide AddHeld, RefreshIn, Source, HasSource;
    var r := RefreshIn(s, pid, env.os);
    var t := AddHeld(r, env.table, env.os);
    AddHeldFrame(r, env.table, env.os);
    RefreshInSockets(s, pid, env.os);
    forall m | m in t.mains && m.pid in done + {pid}
      ensures SettledMain(t, m, env)
    {
      RefreshedMain(s, pid, env.os, m);
      if m.pid == pid {
        HeldIsCovered(r, m, env);
      } else {
        assert SettledMain(s, m, env);
        forall source ensures HasSource(s.sockets, source) ==> HasSource(t.sockets, source) {
          AddHeldGrows(r, env.table, env.os, source);
        }
        CoveredGrows(s.sockets, t.sockets, m, env.table);
      }
    }
  }

  lemma RefreshInSockets(s: Svc, pid: nat, os: Os)
    ensures RefreshIn(s, pid, os).sockets == s.sockets
  {
  }

  lemma CreatedSettled(p: Proc, k: Sock, env: Env, done: set<nat>)
    requires p.pid in env.os.alive && Recorded(p, env.os)
    ensures SettledService(Detected(p, k, env), done, env)
  {
    hide AddHeld, AddMain, SetSocket;
    var base := AddMain(SetSocket(Blank(env.host), k), p, env.os);
    DetectedShape(p, k, env);
    FirstMainOf(k, p, env);
    HeldIsCovered(base, p, env);
  }

  lemma FirstMainOf(k: Sock, p: Proc, env: Env)
    ensures AddMain(SetSocket(Blank(env.host), k), p, env.os).mains == [p]
  {
    hide AddMain;
    FirstMain(SetSocket(Blank(env.host), k), p, env.os);
  }

  /** Outside the visited process nothing unsettles; a service without it is settled for it. */
  lemma DoneGrows(s: Svc, pid: nat, done: set<nat>, env: Env)
    requires SettledService(s, done, env) && !HasPid(s.mains, pid)
    ensures SettledService(s, done + {pid}, env)
  {
    hide SettledMain;
    assert forall m :: m in s.mains ==> HasPid(s.mains, m.pid);
  }

  lemma VisitSettlesServices(ss: seq<Svc>, pid: nat, done: set<nat>, env: Env)
    requires Owned(ss) && pid != 0 && pid in env.os.alive
    requires forall i :: 0 <= i < |ss| ==> SettledService(ss[i], done, env)
    ensures var tt := Visit(ss, pid, env);
      forall i :: 0 <= i < |tt| ==> SettledService(tt[i], done + {pid}, env)
  {
    hide Visit, AddService, AddHeld, RefreshIn, Detected, SettledService;
    VisitCases(ss, pid, env);
    forall i | 0 <= i < |ss| && !HavePid(ss[i], pid)
      ensures SettledService(ss[i], done + {pid}, env)
    {
      DoneGrows(ss[i], pid, done, env);
    }
    match VisitOutcome(ss, pid, env) {
      case Update(i, t) =>
        UpdateSettles(ss[i], pid, done, env);
      case Child(i, t) =>
        assert SettledService(ss[i], done + {pid}, env);
        SubsDoNotUnsettle(ss[i], t, done + {pid}, env);
      case Ignored =>
      case Created(serv, p) =>
        var h := HeldIndex(env.table, p.fds);
        CreatedSettled(p, env.table[h], env, done + {pid});
        AddServiceSettled(ss, serv, done + {pid}, env);
    }
  }

  lemma SubsDoNotUnsettle(s: Svc, t: Svc, done: set<nat>, env: Env)
    requires SettledService(s, done, env) && t.mains == s.mains && t.sockets == s.sockets
    ensures SettledService(t, done, env)
  {
    assert forall m :: m in s.mains && m.pid in done ==> SettledMain(s, m, env);
  }

  /** The visited process is known afterwards, unless no scan makes a service of it. */
  lemma VisitFiles(ss: seq<Svc>, pid: nat, env: Env)
    requires pid in env.os.alive
    ensures Known(Visit(ss, pid, env), pid) || Idle(pid, env)
    ensures Known(ss, pid) || Known(ss, env.os.Ppid(pid)) ==> Known(Visit(ss, pid, env), pid)
  {
    hide Visit, AddService, AddHeld, RefreshIn, Detected;
    VisitCases(ss, pid, env);
    match VisitOutcome(ss, pid, env) {
      case Update(i, t) =>
        VisitKnows(ss, pid, env, pid);
        assert Known(ss, pid);
      case Child(i, t) =>
        AddSubKnows(ss[i].subs, NewProc(pid, env.os), pid);
        ReplaceKnown(ss, i, t, pid);
      case Ignored =>
      case Created(serv, p) =>
        DetectedAgain(ss, pid, env);
        assert HavePid(serv, pid) by { assert serv.mains[0] == p; }
        AddServiceKnows(ss, serv, env, pid);
    }
  }

  lemma VisitSettles(ss: seq<Svc>, pid: nat, done: set<nat>, env: Env)
    requires Owned(ss) && pid != 0 && pid in env.os.alive && done <= env.os.alive
    requires Settled(ss, done, env)
    ensures Settled(Visit(ss, pid, env), done + {pid}, env)
  {
    hide Visit, SettledService, Known, Idle;
    VisitSettlesServices(ss, pid, done, env);
    VisitFiles(ss, pid, env);
    forall x | x in done
      ensures Known(Visit(ss, pid, env), x) || Idle(x, env)
    {
      VisitKnows(ss, pid, env, x);
    }
  }

  // ---------------------------------------------------------------- a whole pass

  /** The directory of processes: every entry is alive and none is called 0. */
  ghost predicate Listing(pids: seq<nat>, os: Os) {
    forall x :: x in pids ==> x != 0 && x in os.alive
  }

  ghost function Elems(pids: seq<nat>): set<nat> {
    set x | x in pids
  }

  lemma {:induction false} VisitAllOwned(ss: seq<Svc>, pids: seq<nat>, env: Env)
    requires Owned(ss)
    ensures Owned(VisitAll(ss, pids, env))
  {
    hide Visit;
    if pids != [] {
      VisitAllOwned(ss, pids[..|pids| - 1], env);
      VisitOwned(VisitAll(ss, pids[..|pids| - 1], env), pids[|pids| - 1], env);
    }
  }

  lemma {:induction false} VisitAllSettles(ss: seq<Svc>, pids: seq<nat>, env: Env)
    requires Owned(ss) && Listing(pids, env.os)
    ensures Settled(VisitAll(ss, pids, env), Elems(pids), env)
  {
    hide Visit, Settled;
    if pids == [] {
      NothingDone(ss, env);
      assert Elems(pids) == {};
    } else {
      var init, last := pids[..|pids| - 1], pids[|pids| - 1];
      assert last in pids && forall x :: x in init ==> x in pids;
      VisitAllOwned(ss, init, env);
      VisitAllSettles(ss, init, env);
      VisitSettles(VisitAll(ss, init, env), last, Elems(init), env);
      assert Elems(pids) == Elems(init) + {last};
    }
  }

  lemma NothingDone(ss: seq<Svc>, env: Env)
    ensures Settled(ss, {}, env)
  {
  }

  /** Socket completeness: after one pass, every socket of the table that a listed main process
      holds according to the host is listed, by source, in the service of that process. */
  lemma PassIsComplete(ss: seq<Svc>, pids: seq<nat>, env: Env, i: nat, m: Proc, k: Sock)
    requires Owned(ss) && Listing(pids, env.os)
    requires i < |Pass(ss, pids, env)| && m in Pass(ss, pids, env)[i].mains && m.pid in pids
    requires m.pid in env.os.fds && k in env.table && k.id in env.os.fds[m.pid]
    ensures HasSource(Pass(ss, pids, env)[i].sockets, Source(k))
  {
    hide VisitAll, Source, HasSource;
    VisitAllSettles(ss, pids, env);
    assert SettledMain(Pass(ss, pids, env)[i], m, env);
  }

  // ---------------------------------------------------------------- further passes

  lemma {:induction false} AddHeldIdle(s: Svc, table: seq<Sock>, os: Os)
    requires forall k :: k in table && HaveSocket(s, k.id, os) ==> HasSource(s.sockets, Source(k))
    ensures AddHeld(s, table, os) == s
  {
    hide Source, HaveSocket;
    if table != [] {
      AddHeldIdle(s, table[..|table| - 1], os);
    }
  }

  /** The list of processes with a given pid, seen through everything but its sub-processes. */
  ghost predicate SameButSubs(s: Svc, t: Svc) {
    t == s.(subs := t.subs)
  }

  ghost predicate AllSameButSubs(ss: seq<Svc>, tt: seq<Svc>) {
    |ss| == |tt| && forall i :: 0 <= i < |ss| ==> SameButSubs(ss[i], tt[i])
  }

  /** Two scans of the same host that differ at most in how enhancers name services. */
  ghost predicate SameHost(a: Env, b: Env) {
    a.os == b.os && a.table == b.table && a.rules == b.rules
  }

  lemma RefreshRecorded(s: Svc, pid: nat, done: set<nat>, env: Env)
    requires SettledService(s, done, env) && pid in done
    ensures SameButSubs(s, RefreshIn(s, pid, env.os))
  {
    var i := PidIndex(s.mains, pid);
    if i >= 0 {
      assert SettledMain(s, s.mains[i], env);
      assert s.mains[i := s.mains[i]] == s.mains;
    }
  }

  lemma UpdateIsIdle(s: Svc, pid: nat, done: set<nat>, env: Env)
    requires SettledService(s, done, env) && pid in done && env.os.alive <= done
    ensures SameButSubs(s, AddHeld(RefreshIn(s, pid, env.os), env.table, env.os))
    ensures AddHeld(RefreshIn(s, pid, env.os), env.table, env.os) == RefreshIn(s, pid, env.os)
  {
    hide RefreshIn, AddHeld, Source, HasSource;
    var r := RefreshIn(s, pid, env.os);
    RefreshRecorded(s, pid, done, env);
    forall k | k in env.table && HaveSocket(r, k.id, env.os)
      ensures HasSource(r.sockets, Source(k))
    {
      var i :| 0 <= i < |r.mains| && r.mains[i].pid in env.os.alive && k.id in r.mains[i].fds;
      assert r.mains == s.mains && r.mains[i] in s.mains;
      assert SettledMain(s, r.mains[i], env);
    }
    AddHeldIdle(r, env.table, env.os);
  }

  lemma NothingLeftToCreate(ss: seq<Svc>, pid: nat, env: Env)
    requires Known(ss, pid) || Idle(pid, env)
    ensures !VisitOutcome(ss, pid, env).Created?
  {
    hide AddHeld, RefreshIn, Detected;
  }

  lemma VisitSettledAgain(ss: seq<Svc>, pid: nat, done: set<nat>, env: Env)
    requires Settled(ss, done, env) && pid in done && env.os.alive == done
    ensures AllSameButSubs(ss, Visit(ss, pid, env))
    ensures Settled(Visit(ss, pid, env), done, env)
  {
    hide Visit, Known, Idle, SettledService;
    VisitAgainServices(ss, pid, done, env);
    forall x | x in done
      ensures Known(Visit(ss, pid, env), x) || Idle(x, env)
    {
      VisitKnows(ss, pid, env, x);
    }
  }

  lemma VisitAgainServices(ss: seq<Svc>, pid: nat, done: set<nat>, env: Env)
    requires Settled(ss, done, env) && pid in done && env.os.alive == done
    ensures AllSameButSubs(ss, Visit(ss, pid, env))
    ensures forall i :: 0 <= i < |Visit(ss, pid, env)| ==> SettledService(Visit(ss, pid, env)[i], done, env)
  {
    NothingLeftToCreate(ss, pid, env);
    hide Visit, AddService, AddHeld, RefreshIn, Detected, SettledService, Known, Idle;
    VisitCases(ss, pid, env);
    match VisitOutcome(ss, pid, env) {
      case Update(i, t) =>
        UpdateIsIdle(ss[i], pid, done, env);
        SubsDoNotUnsettle(ss[i], t, done, env);
      case Child(i, t) =>
        SubsDoNotUnsettle(ss[i], t, done, env);
      case Ignored =>
    }
  }

  lemma {:induction false} PassAgain(ss: seq<Svc>, pids: seq<nat>, done: set<nat>, env: Env)
    requires Settled(ss, done, env) && env.os.alive == done && forall x :: x in pids ==> x in done
    ensures AllSameButSubs(ss, VisitAll(ss, pids, env))
    ensures Settled(VisitAll(ss, pids, env), done, env)
  {
    hide Visit, Settled;
    if pids != [] {
      var init := pids[..|pids| - 1];
      PassAgain(ss, init, done, env);
      VisitSettledAgain(VisitAll(ss, init, env), pids[|pids| - 1], done, env);
    }
  }

  lemma SettledSameHost(ss: seq<Svc>, done: set<nat>, a: Env, b: Env)
    requires SameHost(a, b) && Settled(ss, done, a)
    ensures Settled(ss, done, b)
  {
    forall i | 0 <= i < |ss|
      ensures SettledService(ss[i], done, b)
    {
      assert SettledService(ss[i], done, a);
      assert forall m :: m in ss[i].mains && m.pid in done ==> SettledMain(ss[i], m, a);
    }
    forall x | x in done
      ensures Known(ss, x) || Idle(x, b)
    {
      assert Known(ss, x) || Idle(x, a);
    }
  }

  /** One pass after another, each with its own enumeration order and its own enhancers. */
  function Passes(ss: seq<Svc>, orders: seq<seq<nat>>, envs: seq<Env>): seq<Svc>
    requires |orders| == |envs|
  {
    if orders == [] then ss
    else
      var n := |orders| - 1;
      Pass(Passes(ss, orders[..n], envs[..n]), orders[n], envs[n])
  }

  /** Discovery fixpoint. On an unchanging host the first pass finds every service: any further
      passes, in any enumeration orders and whatever the enhancers answer, leave the number of
      services and, in each of them, everything but the sub-processes as the first pass left it. */
  lemma {:induction false} DiscoveryFixpoint(ss: seq<Svc>, pids: seq<nat>, env: Env, orders: seq<seq<nat>>, envs: seq<Env>)
    requires Owned(ss) && Listing(pids, env.os) && env.os.alive == Elems(pids)
    requires |orders| == |envs| && (forall i :: 0 <= i < |envs| ==> SameHost(env, envs[i]))
    requires forall i :: 0 <= i < |orders| ==> forall x :: x in orders[i] ==> x in pids
    ensures var first := Pass(ss, pids, env);
      AllSameButSubs(first, Passes(first, orders, envs))
    ensures |env.table| >= 1 ==> Settled(Passes(Pass(ss, pids, env), orders, envs), env.os.alive, env)
  {
    hide VisitAll, Settled;
    var first := Pass(ss, pids, env);
    VisitAllSettles(ss, pids, env);
    if orders != [] {
      var n := |orders| - 1;
      var before := Passes(first, orders[..n], envs[..n]);
      DiscoveryFixpoint(ss, pids, env, orders[..n], envs[..n]);
      if |env.table| >= 1 {
        SettledSameHost(before, env.os.alive, env, envs[n]);
        PassAgain(before, orders[n], env.os.alive, envs[n]);
        SettledSameHost(Passes(first, orders, envs), env.os.alive, envs[n], env);
      }
    }
  }

  // ---------------------------------------------------------------- children

  ghost predicate ParentsFirst(pids: seq<nat>, os: Os) {
    && (forall i, j :: 0 <= i < j < |pids| ==> pids[i] != pids[j])
    && (forall i, j :: 0 <= i < |pids| && 0 <= j < |pids| && pids[j] == os.Ppid(pids[i]) ==> j <= i)
  }

  lemma {:induction false} VisitAllKnows(ss: seq<Svc>, pids: seq<nat>, env: Env, x: nat)
    requires Known(ss, x) && x in env.os.alive
    ensures Known(VisitAll(ss, pids, env), x)
  {
    hide Visit, Known;
    if pids != [] {
      VisitAllKnows(ss, pids[..|pids| - 1], env, x);
      VisitKnows(VisitAll(ss, pids[..|pids| - 1], env), pids[|pids| - 1], env, x);
    }
  }

  /** With parents listed before their children one pass closes the known processes under the
      child relation. */
  lemma {:induction false} OnePassAdoptsChildren(ss: seq<Svc>, pids: seq<nat>, env: Env, x: nat)
    requires Listing(pids, env.os) && ParentsFirst(pids, env.os) && x in pids
    requires Known(VisitAll(ss, pids, env), env.os.Ppid(x))
    ensures Known(VisitAll(ss, pids, env), x)
  {
    hide Visit, Known;
    var init, last := pids[..|pids| - 1], pids[|pids| - 1];
    var before := VisitAll(ss, init, env);
    var parent := env.os.Ppid(x);
    VisitKnows(before, last, env, parent);
    VisitKnows(before, last, env, x);
    VisitFiles(before, last, env);
    if x != last {
      assert x in init && forall y :: y in init ==> y in pids;
      ParentsFirstInit(pids, env.os, x);
      if Known(before, parent) {
        OnePassAdoptsChildren(ss, init, env, x);
      }
    }
  }

  lemma ParentsFirstInit(pids: seq<nat>, os: Os, x: nat)
    requires pids != [] && ParentsFirst(pids, os) && x in pids[..|pids| - 1]
    ensures ParentsFirst(pids[..|pids| - 1], os)
    ensures os.Ppid(x) != pids[|pids| - 1]
  {
    var n := |pids| - 1;
    var init := pids[..n];
    assert forall i :: 0 <= i < n ==> init[i] == pids[i];
    var i :| 0 <= i < n && pids[i] == x;
  }

  /** The process `d` generations above `x`. */
  function Ancestor(os: Os, x: nat, d: nat): nat
    decreases d
  {
    if d == 0 then x else Ancestor(os, os.Ppid(x), d - 1)
  }

  lemma {:induction false} VisitAllAdopts(ss: seq<Svc>, pids: seq<nat>, env: Env, x: nat)
    requires x in pids && x in env.os.alive && env.os.Ppid(x) in env.os.alive && Known(ss, env.os.Ppid(x))
    ensures Known(VisitAll(ss, pids, env), x)
  {
    hide Visit, Known;
    var init, last := pids[..|pids| - 1], pids[|pids| - 1];
    var before := VisitAll(ss, init, env);
    if x == last {
      VisitAllKnows(ss, init, env, env.os.Ppid(x));
      VisitFiles(before, x, env);
    } else {
      assert x in init;
      VisitAllAdopts(ss, init, env, x);
      VisitKnows(before, last, env, x);
    }
  }

  /** In any enumeration orders, a live descendant of a known live process is known after as many
      passes as there are generations between them. */
  lemma {:induction false} DescendantsWithinPasses(ss: seq<Svc>, orders: seq<seq<nat>>, envs: seq<Env>, os: Os, x: nat)
    requires |orders| == |envs| && (forall i :: 0 <= i < |envs| ==> envs[i].os == os && |envs[i].table| >= 1)
    requires forall i :: 0 <= i < |orders| ==> forall y :: y in os.alive ==> y in orders[i]
    requires forall d :: 0 <= d <= |orders| ==> Ancestor(os, x, d) in os.alive
    requires Known(ss, Ancestor(os, x, |orders|))
    ensures Known(Passes(ss, orders, envs), x)
  {
    hide VisitAll, Known;
    if orders != [] {
      var n := |orders| - 1;
      var parent := os.Ppid(x);
      forall d | 0 <= d <= n
        ensures Ancestor(os, parent, d) in os.alive
      {
        assert Ancestor(os, x, d + 1) == Ancestor(os, parent, d);
      }
      DescendantsWithinPasses(ss, orders[..n], envs[..n], os, parent);
      assert Ancestor(os, x, 0) in os.alive && Ancestor(os, x, 1) in os.alive;
      assert Ancestor(os, x, 1) == Ancestor(os, parent, 0) == parent;
      VisitAllAdopts(Passes(ss, orders[..n], envs[..n]), orders[n], envs[n], x);
    }
  }
}
