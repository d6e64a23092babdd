/** On an unchanging host the whole list of services converges: after the first pass, as many further
    ones as the deepest descendant has generations, and one more for its descriptors, a pass changes
    nothing at all. */
module Convergence {
  import opened ServiceModel
  import opened Ownership
  import opened OwnershipRuns
  import opened Scan

  /** The state that the first pass leaves. */
  ghost predicate Steady(ss: seq<Svc>, env: Env) {
    Owned(ss) && Settled(ss, env.os.alive, env)
  }

  // ---------------------------------------------------------------- one entry

  /** What visiting a live process can still do. */
  lemma SteadyVisit(ss: seq<Svc>, pid: nat, env: Env)
    requires Steady(ss, env) && pid in env.os.alive
    ensures Steady(Visit(ss, pid, env), env)
    ensures match VisitOutcome(ss, pid, env)
      case Update(i, _) => i < |ss| && HavePid(ss[i], pid) && Visit(ss, pid, env) == ss[i := RefreshIn(ss[i], pid, env.os)]
      case Child(i, t) =>
        i < |ss| && !Known(ss, pid) && HavePid(ss[i], env.os.Ppid(pid))
        && Visit(ss, pid, env) == ss[i := AddSub(ss[i], NewProc(pid, env.os))]
      case Ignored => !Known(ss, pid) && !Known(ss, env.os.Ppid(pid)) && Visit(ss, pid, env) == ss
      case Created(_, _) => false
  {
    VisitOwned(ss, pid, env);
    VisitSettledAgain(ss, pid, env.os.alive, env);
    SteadyOutcome(ss, pid, env);
  }

  lemma SteadyOutcome(ss: seq<Svc>, pid: nat, env: Env)
    requires Steady(ss, env) && pid in env.os.alive
    ensures match VisitOutcome(ss, pid, env)
      case Update(i, _) => i < |ss| && HavePid(ss[i], pid) && Visit(ss, pid, env) == ss[i := RefreshIn(ss[i], pid, env.os)]
      case Child(i, t) =>
        i < |ss| && !Known(ss, pid) && HavePid(ss[i], env.os.Ppid(pid))
        && Visit(ss, pid, env) == ss[i := AddSub(ss[i], NewProc(pid, env.os))]
      case Ignored => !Known(ss, pid) && !Known(ss, env.os.Ppid(pid)) && Visit(ss, pid, env) == ss
      case Created(_, _) => false
  {
    hide Visit, AddHeld, RefreshIn, Detected, AddSub, SettledService, Idle, Owned;
    assert Known(ss, pid) || Idle(pid, env);
    NothingLeftToCreate(ss, pid, env);
    VisitCases(ss, pid, env);
    ParentOfOutcome(ss, pid, env);
    match VisitOutcome(ss, pid, env) {
      case Update(i, t) =>
        UpdateIsIdle(ss[i], pid, env.os.alive, env);
      case _ =>
    }
  }

  lemma ParentOfOutcome(ss: seq<Svc>, pid: nat, env: Env)
    ensures match VisitOutcome(ss, pid, env)
      case Update(i, t) => t == AddHeld(RefreshIn(ss[i], pid, env.os), env.table, env.os)
      case Child(i, t) => i < |ss| && HavePid(ss[i], env.os.Ppid(pid)) && t == AddSub(ss[i], NewProc(pid, env.os))
      case Ignored => !Known(ss, env.os.Ppid(pid))
      case Created(_, _) => true
  {
    hide HavePid, AddHeld, RefreshIn, Detected, AddSub, Refresh, Listed, HeldIndex;
  }

  /** A process becomes known exactly when it is visited and its parent is known; nobody is forgotten. */
  lemma VisitGrows(ss: seq<Svc>, pid: nat, env: Env, x: nat)
    requires Steady(ss, env) && pid in env.os.alive
    ensures Known(Visit(ss, pid, env), x) <==> Known(ss, x) || (x == pid && Known(ss, env.os.Ppid(pid)))
  {
    hide Visit, RefreshIn, AddSub, Steady, HavePid;
    SteadyVisit(ss, pid, env);
    VisitKnows(ss, pid, env, x);
    match VisitOutcome(ss, pid, env) {
      case Update(i, _) =>
        assert Known(ss, pid);
      case Child(i, _) =>
        assert Known(ss, env.os.Ppid(pid));
        ChildKnown(ss, i, NewProc(pid, env.os), x);
      case Ignored =>
    }
  }

  lemma ChildKnown(ss: seq<Svc>, i: nat, p: Proc, x: nat)
    requires i < |ss|
    ensures Known(ss[i := AddSub(ss[i], p)], x) <==> Known(ss, x) || x == p.pid
  {
    AddSubKnows(ss[i].subs, p, x);
    var tt := ss[i := AddSub(ss[i], p)];
    if Known(ss, x) {
      var j :| 0 <= j < |ss| && HavePid(ss[j], x);
      assert HavePid(tt[j], x);
    }
    assert HavePid(tt[i], x) <==> HavePid(ss[i], x) || x == p.pid;
    if Known(tt, x) && x != p.pid {
      var j :| 0 <= j < |tt| && HavePid(tt[j], x);
      assert HavePid(ss[j], x);
    }
  }

  // ---------------------------------------------------------------- who can become known

  /** `x` descends from a known process over at most `n` generations of live ones. */
  ghost predicate Reaches(ss: seq<Svc>, os: Os, x: nat, n: nat)
    decreases n
  {
    Known(ss, x) || (n > 0 && x in os.alive && Reaches(ss, os, os.Ppid(x), n - 1))
  }

  ghost predicate Descends(ss: seq<Svc>, os: Os, x: nat) {
    exists n: nat :: Reaches(ss, os, x, n)
  }

  /** No descendant is more than `d` generations away. */
  ghost predicate Depth(ss: seq<Svc>, os: Os, d: nat) {
    forall x: nat, n: nat :: Reaches(ss, os, x, n) ==> Reaches(ss, os, x, d)
  }

  lemma {:induction false} ReachesMore(ss: seq<Svc>, os: Os, x: nat, n: nat, m: nat)
    requires n <= m && Reaches(ss, os, x, n)
    ensures Reaches(ss, os, x, m)
    decreases n
  {
    hide Known;
    if !Known(ss, x) {
      ReachesMore(ss, os, os.Ppid(x), n - 1, m - 1);
    }
  }

  lemma DescendsStep(ss: seq<Svc>, os: Os, x: nat)
    requires x in os.alive && Descends(ss, os, os.Ppid(x))
    ensures Descends(ss, os, x)
  {
    hide Known;
    var n: nat :| Reaches(ss, os, os.Ppid(x), n);
    assert Reaches(ss, os, x, n + 1);
  }

  /** Whoever a pass makes known descends from someone known before. */
  lemma {:induction false} KnownDescends(ss: seq<Svc>, pids: seq<nat>, env: Env, x: nat)
    requires Steady(ss, env) && (forall y :: y in pids ==> y in env.os.alive)
    requires Known(VisitAll(ss, pids, env), x)
    ensures Descends(ss, env.os, x)
    decreases |pids|
  {
    hide Visit, Known, Steady, Descends;
    if pids == [] {
      KnownIsReached(ss, env.os, x);
    } else {
      var init, last := pids[..|pids| - 1], pids[|pids| - 1];
      assert last in pids && forall y :: y in init ==> y in pids;
      StaysSteady(ss, init, env);
      VisitGrows(VisitAll(ss, init, env), last, env, x);
      if Known(VisitAll(ss, init, env), x) {
        KnownDescends(ss, init, env, x);
      } else {
        KnownDescends(ss, init, env, env.os.Ppid(last));
        DescendsStep(ss, env.os, last);
      }
    }
  }

  lemma KnownIsReached(ss: seq<Svc>, os: Os, x: nat)
    requires Known(ss, x)
    ensures Descends(ss, os, x)
  {
    assert Reaches(ss, os, x, 0);
  }

  lemma {:induction false} StaysSteady(ss: seq<Svc>, pids: seq<nat>, env: Env)
    requires Steady(ss, env) && forall y :: y in pids ==> y in env.os.alive
    ensures Steady(VisitAll(ss, pids, env), env)
  {
    hide Visit, Steady;
    if pids != [] {
      var init, last := pids[..|pids| - 1], pids[|pids| - 1];
      assert last in pids && forall y :: y in init ==> y in pids;
      StaysSteady(ss, init, env);
      SteadyVisit(VisitAll(ss, init, env), last, env);
    }
  }

  lemma {:induction false} KnownStays(ss: seq<Svc>, pids: seq<nat>, env: Env, x: nat)
    requires Steady(ss, env) && (forall y :: y in pids ==> y in env.os.alive) && Known(ss, x)
    ensures Known(VisitAll(ss, pids, env), x)
  {
    hide Visit, Known, Steady;
    if pids != [] {
      var init, last := pids[..|pids| - 1], pids[|pids| - 1];
      assert last in pids && forall y :: y in init ==> y in pids;
      KnownStays(ss, init, env, x);
      StaysSteady(ss, init, env);
      VisitGrows(VisitAll(ss, init, env), last, env, x);
    }
  }

  /** A pass adopts every visited child of a known process. */
  lemma {:induction false} PassAdopts(ss: seq<Svc>, pids: seq<nat>, env: Env, x: nat)
    requires Steady(ss, env) && (forall y :: y in pids ==> y in env.os.alive)
    requires x in pids && Known(ss, env.os.Ppid(x))
    ensures Known(VisitAll(ss, pids, env), x)
  {
    hide Visit, Known, Steady;
    var init, last := pids[..|pids| - 1], pids[|pids| - 1];
    assert last in pids && forall y :: y in init ==> y in pids;
    StaysSteady(ss, init, env);
    VisitGrows(VisitAll(ss, init, env), last, env, x);
    if x == last {
      KnownStays(ss, init, env, env.os.Ppid(x));
    } else {
      assert x in init;
      PassAdopts(ss, init, env, x);
    }
  }

  // ---------------------------------------------------------------- a closed list

  /** Every live child of a known process is known. */
  ghost predicate Closed(ss: seq<Svc>, os: Os) {
    forall x :: x in os.alive && Known(ss, os.Ppid(x)) ==> Known(ss, x)
  }

  /** The sub-processes among `done` have the descriptors that the host shows. */
  ghost predicate SubsRecorded(ss: seq<Svc>, done: set<nat>, os: Os) {
    forall i, m :: 0 <= i < |ss| && m in ss[i].subs && m.pid in done ==> Recorded(m, os)
  }

  lemma ClosedVisit(ss: seq<Svc>, pid: nat, env: Env)
    requires Steady(ss, env) && Closed(ss, env.os) && pid in env.os.alive
    ensures Closed(Visit(ss, pid, env), env.os)
    ensures !VisitOutcome(ss, pid, env).Child?
  {
    hide Visit, Known, Steady, RefreshIn, AddSub;
    forall x
      ensures Known(Visit(ss, pid, env), x) <==> Known(ss, x)
    {
      VisitGrows(ss, pid, env, x);
    }
    SteadyVisit(ss, pid, env);
    ChildHasParent(ss, pid, env);
  }

  lemma ChildHasParent(ss: seq<Svc>, pid: nat, env: Env)
    ensures VisitOutcome(ss, pid, env).Child? ==> !Known(ss, pid) && Known(ss, env.os.Ppid(pid))
  {
    hide Visit, HavePid, AddSub;
    VisitCases(ss, pid, env);
    ParentOfOutcome(ss, pid, env);
  }

  /** Nobody but the visited process has its pid. */
  lemma OnlyHolder(ss: seq<Svc>, i: nat, pid: nat)
    requires Owned(ss) && i < |ss| && HavePid(ss[i], pid) && pid != 0
    ensures forall j :: 0 <= j < |ss| && j != i ==> !HasPid(ss[j].subs, pid)
    ensures HasPid(ss[i].mains, pid) ==> !HasPid(ss[i].subs, pid)
    ensures NoDup(ss[i].subs)
  {
    assert Unique(ss[i]);
  }

  lemma RefreshRecords(s: Svc, pid: nat, done: set<nat>, os: Os)
    requires pid != 0 && HavePid(s, pid) && NoDup(s.subs) && (HasPid(s.mains, pid) ==> !HasPid(s.subs, pid))
    requires forall m :: m in s.subs && m.pid in done ==> Recorded(m, os)
    ensures forall m :: m in RefreshIn(s, pid, os).subs && m.pid in done + {pid} ==> Recorded(m, os)
  {
    hide Dedup;
    var t := RefreshIn(s, pid, os);
    if PidIndex(s.mains, pid) < 0 {
      var j := PidIndex(s.subs, pid);
      forall m | m in t.subs && m.pid in done + {pid}
        ensures Recorded(m, os)
      {
        var k :| 0 <= k < |t.subs| && t.subs[k] == m;
        if k != j {
          assert s.subs[k] == m && s.subs[k].pid != s.subs[j].pid;
        }
      }
    } else {
      assert t.subs == s.subs;
      assert HasPid(s.mains, pid);
    }
  }

  lemma VisitRecords(ss: seq<Svc>, pid: nat, done: set<nat>, env: Env)
    requires Steady(ss, env) && Closed(ss, env.os) && pid in env.os.alive && pid != 0
    requires SubsRecorded(ss, done, env.os)
    ensures SubsRecorded(Visit(ss, pid, env), done + {pid}, env.os)
  {
    hide Visit, RefreshIn, AddSub, Recorded, Closed, Settled, Owned, HasPid, NoDup;
    SteadyVisit(ss, pid, env);
    ClosedVisit(ss, pid, env);
    match VisitOutcome(ss, pid, env) {
      case Update(i, _) =>
        OnlyHolder(ss, i, pid);
        RefreshRecords(ss[i], pid, done, env.os);
        OthersRecorded(ss, i, pid, done, env.os);
      case Ignored =>
        NobodyIs(ss, pid);
    }
  }

  lemma NobodyIs(ss: seq<Svc>, pid: nat)
    requires !Known(ss, pid)
    ensures forall i, m :: 0 <= i < |ss| && m in ss[i].subs ==> m.pid != pid
  {
    forall i, m | 0 <= i < |ss| && m in ss[i].subs
      ensures m.pid != pid
    {
      assert !HavePid(ss[i], pid);
      var k :| 0 <= k < |ss[i].subs| && ss[i].subs[k] == m;
    }
  }

  lemma OthersRecorded(ss: seq<Svc>, i: nat, pid: nat, done: set<nat>, os: Os)
    requires i < |ss| && SubsRecorded(ss, done, os)
    requires forall j :: 0 <= j < |ss| && j != i ==> !HasPid(ss[j].subs, pid)
    requires forall m :: m in RefreshIn(ss[i], pid, os).subs && m.pid in done + {pid} ==> Recorded(m, os)
    ensures SubsRecorded(ss[i := RefreshIn(ss[i], pid, os)], done + {pid}, os)
  {
    hide RefreshIn, Recorded;
    var tt := ss[i := RefreshIn(ss[i], pid, os)];
    forall j, m | 0 <= j < |tt| && m in tt[j].subs && m.pid in done + {pid}
      ensures Recorded(m, os)
    {
      if j != i {
        assert tt[j] == ss[j];
        var k :| 0 <= k < |ss[j].subs| && ss[j].subs[k] == m;
        assert m.pid != pid;
      }
    }
  }

  lemma {:induction false} PassRecords(ss: seq<Svc>, pids: seq<nat>, env: Env)
    requires Steady(ss, env) && Closed(ss, env.os)
    requires forall y :: y in pids ==> y in env.os.alive && y != 0
    ensures var tt := VisitAll(ss, pids, env);
      Steady(tt, env) && Closed(tt, env.os) && SubsRecorded(tt, Elems(pids), env.os)
  {
    hide Visit, Steady, Closed, SubsRecorded;
    if pids == [] {
      NothingToRecord(ss, env.os);
      assert Elems(pids) == {};
    } else {
      var init, last := pids[..|pids| - 1], pids[|pids| - 1];
      assert last in pids && forall y :: y in init ==> y in pids;
      PassRecords(ss, init, env);
      var before := VisitAll(ss, init, env);
      SteadyVisit(before, last, env);
      ClosedVisit(before, last, env);
      VisitRecords(before, last, Elems(init), env);
      assert Elems(pids) == Elems(init) + {last};
    }
  }

  lemma NothingToRecord(ss: seq<Svc>, os: Os)
    ensures SubsRecorded(ss, {}, os)
  {
  }

  // ---------------------------------------------------------------- the fixpoint

  lemma RefreshKeepsRecorded(s: Svc, pid: nat, env: Env)
    requires SettledService(s, env.os.alive, env) && pid in env.os.alive
    requires forall m :: m in s.subs && m.pid in env.os.alive ==> Recorded(m, env.os)
    ensures RefreshIn(s, pid, env.os) == s
  {
    var i, j := PidIndex(s.mains, pid), PidIndex(s.subs, pid);
    if i >= 0 {
      assert SettledMain(s, s.mains[i], env);
      assert s.mains[i := s.mains[i]] == s.mains;
    } else if j >= 0 {
      assert s.subs[j] in s.subs;
      assert s.subs[j := s.subs[j]] == s.subs;
    }
  }

  /** Closed and recorded, the list is left as it is. */
  lemma VisitIsIdle(ss: seq<Svc>, pid: nat, env: Env)
    requires Steady(ss, env) && Closed(ss, env.os) && SubsRecorded(ss, env.os.alive, env.os) && pid in env.os.alive
    ensures Visit(ss, pid, env) == ss
  {
    hide Visit, RefreshIn, AddSub, Closed, Recorded, SettledService, Owned, Known, Idle;
    SteadyVisit(ss, pid, env);
    ClosedVisit(ss, pid, env);
    match VisitOutcome(ss, pid, env) {
      case Update(i, _) =>
        RefreshKeepsRecorded(ss[i], pid, env);
        assert ss[i := ss[i]] == ss;
      case Ignored =>
    }
  }

  lemma {:induction false} PassIsIdle(ss: seq<Svc>, pids: seq<nat>, env: Env)
    requires Steady(ss, env) && Closed(ss, env.os) && SubsRecorded(ss, env.os.alive, env.os)
    requires forall y :: y in pids ==> y in env.os.alive
    ensures VisitAll(ss, pids, env) == ss
  {
    hide Visit, Steady, Closed, SubsRecorded;
    if pids != [] {
      var init, last := pids[..|pids| - 1], pids[|pids| - 1];
      assert last in pids && forall y :: y in init ==> y in pids;
      PassIsIdle(ss, init, env);
      VisitIsIdle(ss, last, env);
    }
  }

  // ---------------------------------------------------------------- pass after pass

  /** Passes over a host that stays as `env` shows it, each over all live processes in some order. */
  ghost predicate Repeated(env: Env, orders: seq<seq<nat>>, envs: seq<Env>) {
    && (forall i :: 0 <= i < |envs| ==> SameHost(env, envs[i]))
    && (forall i :: 0 <= i < |orders| ==> Elems(orders[i]) == env.os.alive)
  }

  lemma RepeatedInit(env: Env, orders: seq<seq<nat>>, envs: seq<Env>)
    requires |orders| == |envs| && Repeated(env, orders, envs) && orders != []
    ensures var n := |orders| - 1;
      Repeated(env, orders[..n], envs[..n]) && SameHost(env, envs[n])
      && (forall y :: y in orders[n] <==> y in env.os.alive)
  {
    var n := |orders| - 1;
    assert forall y :: y in orders[n] <==> y in Elems(orders[n]);
  }

  lemma SteadySameHost(ss: seq<Svc>, a: Env, b: Env)
    requires SameHost(a, b) && Steady(ss, a)
    ensures Steady(ss, b)
  {
    hide Owned, Settled;
    SettledSameHost(ss, a.os.alive, a, b);
  }

  lemma SameHostBack(a: Env, b: Env)
    requires SameHost(a, b)
    ensures SameHost(b, a)
  {
  }

  /** After `n` passes everyone within `n` generations is known, and nobody else. */
  lemma {:induction false} PassesReach(ss: seq<Svc>, env: Env, orders: seq<seq<nat>>, envs: seq<Env>)
    requires Steady(ss, env) && |env.table| >= 1 && |orders| == |envs| && Repeated(env, orders, envs)
    ensures Steady(Passes(ss, orders, envs), env)
    ensures forall x: nat :: Reaches(ss, env.os, x, |orders|) ==> Known(Passes(ss, orders, envs), x)
    ensures forall x: nat :: Known(Passes(ss, orders, envs), x) ==> Descends(ss, env.os, x)
  {
    hide VisitAll, Known, Steady, Reaches, Descends, Repeated, Elems;
    if orders == [] {
      forall x: nat
        ensures Reaches(ss, env.os, x, 0) ==> Known(ss, x)
        ensures Known(ss, x) ==> Descends(ss, env.os, x)
      {
        ReachesNothing(ss, env.os, x);
      }
    } else {
      var n := |orders| - 1;
      RepeatedInit(env, orders, envs);
      PassesReach(ss, env, orders[..n], envs[..n]);
      var before := Passes(ss, orders[..n], envs[..n]);
      SteadySameHost(before, env, envs[n]);
      StaysSteady(before, orders[n], envs[n]);
      SameHostBack(env, envs[n]);
      SteadySameHost(Passes(ss, orders, envs), envs[n], env);
      forall x: nat
        ensures Reaches(ss, env.os, x, n + 1) ==> Known(Passes(ss, orders, envs), x)
        ensures Known(Passes(ss, orders, envs), x) ==> Descends(ss, env.os, x)
      {
        OneMorePass(ss, before, orders[n], envs[n], x, n);
      }
    }
  }

  lemma ReachesNothing(ss: seq<Svc>, os: Os, x: nat)
    ensures Reaches(ss, os, x, 0) ==> Known(ss, x)
    ensures Known(ss, x) ==> Descends(ss, os, x)
  {
    hide Known;
    if Known(ss, x) {
      KnownIsReached(ss, os, x);
    }
  }

  lemma OneMorePass(ss: seq<Svc>, before: seq<Svc>, order: seq<nat>, env: Env, x: nat, n: nat)
    requires Steady(before, env) && forall y :: y in order <==> y in env.os.alive
    requires forall y: nat :: Reaches(ss, env.os, y, n) ==> Known(before, y)
    requires forall y: nat :: Known(before, y) ==> Descends(ss, env.os, y)
    ensures Reaches(ss, env.os, x, n + 1) ==> Known(VisitAll(before, order, env), x)
    ensures Known(VisitAll(before, order, env), x) ==> Descends(ss, env.os, x)
  {
    hide VisitAll, Known, Steady, Descends;
    if Reaches(ss, env.os, x, n + 1) {
      if Known(ss, x) {
        assert Reaches(ss, env.os, x, n);
        KnownStays(before, order, env, x);
      } else {
        PassAdopts(before, order, env, x);
      }
    }
    if Known(VisitAll(before, order, env), x) {
      KnownDescends(before, order, env, x);
      DescendsThrough(ss, before, env.os, x);
    }
  }

  lemma DescendsThrough(ss: seq<Svc>, tt: seq<Svc>, os: Os, x: nat)
    requires Descends(tt, os, x) && forall y: nat :: Known(tt, y) ==> Descends(ss, os, y)
    ensures Descends(ss, os, x)
  {
    var n: nat :| Reaches(tt, os, x, n);
    ReachesThrough(ss, tt, os, x, n);
  }

  lemma {:induction false} ReachesThrough(ss: seq<Svc>, tt: seq<Svc>, os: Os, x: nat, n: nat)
    requires Reaches(tt, os, x, n) && forall y: nat :: Known(tt, y) ==> Descends(ss, os, y)
    ensures Descends(ss, os, x)
    decreases n
  {
    hide Known, Descends;
    if !Known(tt, x) {
      ReachesThrough(ss, tt, os, os.Ppid(x), n - 1);
      DescendsStep(ss, os, x);
    }
  }

  /** After as many passes as the deepest descendant has generations the list is closed. */
  lemma DeepEnoughIsClosed(ss: seq<Svc>, env: Env, orders: seq<seq<nat>>, envs: seq<Env>)
    requires Steady(ss, env) && |env.table| >= 1 && |orders| == |envs| && Repeated(env, orders, envs) && Depth(ss, env.os, |orders|)
    ensures Closed(Passes(ss, orders, envs), env.os)
  {
    hide Passes, Known, Steady, Repeated, Reaches;
    PassesReach(ss, env, orders, envs);
    var tt := Passes(ss, orders, envs);
    forall x | x in env.os.alive && Known(tt, env.os.Ppid(x))
      ensures Known(tt, x)
    {
      DescendsStep(ss, env.os, x);
      var n: nat :| Reaches(ss, env.os, x, n);
      assert Reaches(ss, env.os, x, |orders|);
    }
  }

  /** The whole list converges: after the first pass, `d` further ones and one more, where no
      descendant of what the first pass has found is more than `d` generations away, a pass leaves
      everything as it is, whatever the orders and the enhancers. */
  lemma ListConverges(ss: seq<Svc>, pids: seq<nat>, env: Env, orders: seq<seq<nat>>, envs: seq<Env>,
                      order: seq<nat>, last: Env)
    requires Owned(ss) && Listing(pids, env.os) && env.os.alive == Elems(pids) && |env.table| >= 1
    requires |orders| == |envs| && Repeated(env, orders, envs) && orders != [] && Depth(Pass(ss, pids, env), env.os, |orders| - 1)
    requires SameHost(env, last) && Elems(order) == env.os.alive
    ensures var tt := Passes(Pass(ss, pids, env), orders, envs); Pass(tt, order, last) == tt
  {
    hide VisitAll, Owned, Settled, Depth, Repeated, Closed, SubsRecorded;
    var first, n := Pass(ss, pids, env), |orders| - 1;
    VisitAllOwned(ss, pids, env);
    VisitAllSettles(ss, pids, env);
    RepeatedInit(env, orders, envs);
    var before := Passes(first, orders[..n], envs[..n]);
    PassesReach(first, env, orders[..n], envs[..n]);
    DeepEnoughIsClosed(first, env, orders[..n], envs[..n]);
    SteadySameHost(before, env, envs[n]);
    NoZero(pids, env.os);
    PassRecords(before, orders[n], envs[n]);
    var tt := Passes(first, orders, envs);
    SameHostBack(env, envs[n]);
    SteadySameHost(tt, envs[n], env);
    SteadySameHost(tt, env, last);
    assert Elems(orders[n]) == env.os.alive by { SameElems(orders[n], env.os.alive); }
    assert forall y :: y in order ==> y in Elems(order);
    PassIsIdle(tt, order, last);
  }

  lemma NoZero(pids: seq<nat>, os: Os)
    requires Listing(pids, os) && os.alive == Elems(pids)
    ensures 0 !in os.alive
  {
  }

  lemma SameElems(order: seq<nat>, s: set<nat>)
    requires forall y :: y in order <==> y in s
    ensures Elems(order) == s
  {
  }

  // ---------------------------------------------------------------- the depth is finite

  ghost function Within(ss: seq<Svc>, os: Os, n: nat): set<nat> {
    set x | x in os.alive && Reaches(ss, os, x, n)
  }

  /** A generation that adds nobody is the last. */
  lemma {:induction false} LastGeneration(ss: seq<Svc>, os: Os, n: nat, x: nat, m: nat)
    requires Within(ss, os, n + 1) <= Within(ss, os, n) && Reaches(ss, os, x, m)
    ensures Reaches(ss, os, x, n)
    decreases m
  {
    hide Known;
    if !Known(ss, x) {
      LastGeneration(ss, os, n, os.Ppid(x), m - 1);
      assert x in Within(ss, os, n + 1);
      assert x in Within(ss, os, n);
    }
  }

  /** Up to generation `n` either one has added nobody, or there are at least `n` processes in it. */
  lemma {:induction false} Generations(ss: seq<Svc>, os: Os, n: nat)
    ensures (exists k: nat :: k < n && Within(ss, os, k + 1) <= Within(ss, os, k)) || |Within(ss, os, n)| >= n
  {
    hide Within;
    if n > 0 {
      Generations(ss, os, n - 1);
      var a, b := Within(ss, os, n - 1), Within(ss, os, n);
      if !(b <= a) {
        WithinGrows(ss, os, n - 1);
        SmallerThan(a, b);
      } else {
        assert n - 1 < n && Within(ss, os, n - 1 + 1) <= Within(ss, os, n - 1);
      }
    }
  }

  lemma WithinGrows(ss: seq<Svc>, os: Os, n: nat)
    ensures Within(ss, os, n) <= Within(ss, os, n + 1) <= os.alive
  {
    hide Reaches;
    forall x | x in Within(ss, os, n)
      ensures x in Within(ss, os, n + 1)
    {
      ReachesMore(ss, os, x, n, n + 1);
    }
  }

  lemma {:induction false} SmallerThan(a: set<nat>, b: set<nat>)
    requires a <= b && !(b <= a)
    ensures |a| < |b|
  {
    var x :| x in b && x !in a;
    AtMost(a, b - {x});
  }

  lemma {:induction false} AtMost(a: set<nat>, b: set<nat>)
    requires a <= b
    ensures |a| <= |b|
    decreases a
  {
    if a != {} {
      var x :| x in a;
      AtMost(a - {x}, b - {x});
    }
  }

  /** No descendant is further away than there are live processes: the list always converges. */
  lemma DepthIsFinite(ss: seq<Svc>, os: Os)
    ensures Depth(ss, os, |os.alive| + 1)
  {
    hide Within, Reaches;
    var n := |os.alive| + 1;
    Generations(ss, os, n);
    WithinGrows(ss, os, n);
    AtMost(Within(ss, os, n), os.alive);
    var k: nat :| k < n && Within(ss, os, k + 1) <= Within(ss, os, k);
    forall x: nat, m: nat | Reaches(ss, os, x, m)
      ensures Reaches(ss, os, x, n)
    {
      LastGeneration(ss, os, k, x, m);
      ReachesMore(ss, os, x, k, n);
    }
  }

  /** So two passes more than there are live processes, and the first one, always suffice. */
  lemma AlwaysConverges(ss: seq<Svc>, pids: seq<nat>, env: Env, orders: seq<seq<nat>>, envs: seq<Env>,
                        order: seq<nat>, last: Env)
    requires Owned(ss) && Listing(pids, env.os) && env.os.alive == Elems(pids) && |env.table| >= 1
    requires |orders| == |envs| == |env.os.alive| + 2 && Repeated(env, orders, envs)
    requires SameHost(env, last) && Elems(order) == env.os.alive
    ensures var tt := Passes(Pass(ss, pids, env), orders, envs); Pass(tt, order, last) == tt
  {
    hide Pass, Passes, Owned, Listing, Repeated, Depth;
    DepthIsFinite(Pass(ss, pids, env), env.os);
    ListConverges(ss, pids, env, orders, envs, order, last);
  }
}
