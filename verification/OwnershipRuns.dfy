/** Ownership along whole runs: scans, service-manager detection and clean-up in any order, with
    arbitrary answers from the host at every step. */
module OwnershipRuns {
  import opened ServiceModel
  import opened Ownership

  // ---------------------------------------------------------------- one directory entry

  lemma FirstMain(s: Svc, p: Proc, os: Os)
    requires s.mains == [] && s.subs == []
    ensures AddMain(s, p, os).mains == [p] && AddMain(s, p, os).subs == []
    ensures AddMain(s, p, os).sockets == s.sockets
  {
    assert [] + [p] == [p];
  }

  lemma DetectedShape(p: Proc, k: Sock, env: Env)
    ensures Detected(p, k, env).mains == [p] && Detected(p, k, env).subs == []
  {
    hide AddMain;
    var blank := SetSocket(Blank(env.host), k);
    FirstMain(blank, p, env.os);
    AddHeldFrame(AddMain(blank, p, env.os), env.table, env.os);
  }

  lemma SingleMainIsNewcomer(ss: seq<Svc>, serv: Svc, p: Proc)
    requires serv.mains == [p] && serv.subs == [] && !Known(ss, p.pid)
    ensures Newcomer(serv, ss)
    ensures forall x: nat :: HavePid(serv, x) <==> x == p.pid
  {
    assert serv.mains[0] == p;
  }

  /** Refreshing descriptors changes no pid. */
  lemma RefreshInKnows(s: Svc, pid: nat, os: Os)
    ensures forall x: nat :: HasPid(RefreshIn(s, pid, os).mains, x) <==> HasPid(s.mains, x)
    ensures forall x: nat :: HasPid(RefreshIn(s, pid, os).subs, x) <==> HasPid(s.subs, x)
    ensures Unique(s) ==> Unique(RefreshIn(s, pid, os))
  {
    var t := RefreshIn(s, pid, os);
    assert |t.mains| == |s.mains| && forall i :: 0 <= i < |s.mains| ==> t.mains[i].pid == s.mains[i].pid;
    assert |t.subs| == |s.subs| && forall i :: 0 <= i < |s.subs| ==> t.subs[i].pid == s.subs[i].pid;
    SamePids(s.mains, t.mains);
    SamePids(s.subs, t.subs);
  }

  lemma SamePids(ps: seq<Proc>, qs: seq<Proc>)
    requires |ps| == |qs| && forall i :: 0 <= i < |ps| ==> ps[i].pid == qs[i].pid
    ensures forall x: nat :: HasPid(ps, x) <==> HasPid(qs, x)
    ensures NoDup(ps) <==> NoDup(qs)
  {
  }

  /** The four things a directory entry can lead to. */
  datatype Outcome = Update(i: nat, t: Svc) | Child(i: nat, t: Svc) | Ignored | Created(serv: Svc, p: Proc)

  ghost function VisitOutcome(ss: seq<Svc>, pid: nat, env: Env): Outcome {
    var i, j := GetService(ss, pid), GetService(ss, env.os.Ppid(pid));
    var p0 := NewProc(pid, env.os);
    var p := Refresh(p0, env.os);
    var h := HeldIndex(env.table, p.fds);
    if i >= 0 then Update(i, AddHeld(RefreshIn(ss[i], pid, env.os), env.table, env.os))
    else if j >= 0 then Child(j, AddSub(ss[j], p0))
    else if Listed(p0, env.rules) || h < 0 then Ignored
    else Created(Detected(p, env.table[h], env), p)
  }

  lemma VisitCases(ss: seq<Svc>, pid: nat, env: Env)
    ensures var tt := Visit(ss, pid, env);
      match VisitOutcome(ss, pid, env)
      case Update(i, t) => i < |ss| && HavePid(ss[i], pid) && tt == ss[i := t]
      case Child(i, t) => i < |ss| && !Known(ss, pid) && tt == ss[i := t]
      case Ignored => !Known(ss, pid) && tt == ss
      case Created(serv, p) => !Known(ss, pid) && p.pid == pid && tt == AddService(ss, serv, env)
  {
    hide AddService, Detected, AddHeld, RefreshIn;
  }

  lemma VisitOwned(ss: seq<Svc>, pid: nat, env: Env)
    requires Owned(ss)
    ensures Owned(Visit(ss, pid, env))
  {
    hide Visit, AddService, AddHeld, RefreshIn, Detected;
    VisitCases(ss, pid, env);
    match VisitOutcome(ss, pid, env) {
      case Update(i, t) =>
        RefreshInKnows(ss[i], pid, env.os);
        AddHeldFrame(RefreshIn(ss[i], pid, env.os), env.table, env.os);
        ReplaceOwned(ss, i, t);
      case Child(i, t) =>
        ChildOwned(ss, i, NewProc(pid, env.os));
      case Ignored =>
      case Created(serv, p) =>
        DetectedAgain(ss, pid, env);
        SingleMainIsNewcomer(ss, serv, p);
        AddServiceOwned(ss, serv, env);
    }
  }

  lemma DetectedAgain(ss: seq<Svc>, pid: nat, env: Env)
    requires VisitOutcome(ss, pid, env).Created?
    ensures var o := VisitOutcome(ss, pid, env); o.serv.mains == [o.p] && o.serv.subs == []
  {
    hide Detected;
    var p := Refresh(NewProc(pid, env.os), env.os);
    DetectedShape(p, env.table[HeldIndex(env.table, p.fds)], env);
  }

  lemma ChildOwned(ss: seq<Svc>, i: nat, p: Proc)
    requires Owned(ss) && i < |ss| && !Known(ss, p.pid)
    ensures Owned(ss[i := AddSub(ss[i], p)])
  {
    var t := AddSub(ss[i], p);
    assert !HavePid(ss[i], p.pid);
    forall x: nat
      ensures HasPid(t.subs, x) <==> HasPid(ss[i].subs, x) || x == p.pid
    {
      AddSubKnows(ss[i].subs, p, x);
    }
    NoDupSnoc(ss[i].subs, p);
    ReplaceOwned(ss, i, t);
  }

  /** A visit makes nobody but the visited process known, and forgets no live process. */
  lemma VisitKnows(ss: seq<Svc>, pid: nat, env: Env, x: nat)
    ensures Known(Visit(ss, pid, env), x) ==> Known(ss, x) || x == pid
    ensures x in env.os.alive && Known(ss, x) ==> Known(Visit(ss, pid, env), x)
    ensures Known(ss, pid) ==> (Known(Visit(ss, pid, env), x) <==> Known(ss, x))
  {
    hide Visit, AddService, AddHeld, RefreshIn, Detected;
    VisitCases(ss, pid, env);
    match VisitOutcome(ss, pid, env) {
      case Update(i, t) =>
        RefreshInKnows(ss[i], pid, env.os);
        AddHeldFrame(RefreshIn(ss[i], pid, env.os), env.table, env.os);
        ReplaceKnown(ss, i, t, x);
        if HavePid(ss[i], x) {
          assert Known(ss, x);
        }
      case Child(i, t) =>
        AddSubKnows(ss[i].subs, NewProc(pid, env.os), x);
        ReplaceKnown(ss, i, t, x);
        if HavePid(ss[i], x) {
          assert Known(ss, x);
        }
      case Ignored =>
      case Created(serv, p) =>
        DetectedAgain(ss, pid, env);
        SingleMainIsNewcomer(ss, serv, p);
        AddServiceKnows(ss, serv, env, x);
    }
  }

  // ---------------------------------------------------------------- the other steps

  lemma UnitOwned(ss: seq<Svc>, pid: nat, unit: string, env: Env)
    requires Owned(ss)
    ensures Owned(DetectUnit(ss, pid, unit, env))
  {
    hide AddService, AddMain;
    var p := NewProc(pid, env.os);
    var serv := AddMain(Blank(env.host).(uniq := unit), p, env.os);
    FirstMain(Blank(env.host).(uniq := unit), p, env.os);
    if GetService(ss, pid) < 0 {
      SingleMainIsNewcomer(ss, serv, p);
      AddServiceOwned(ss, serv, env);
    }
  }

  lemma {:induction false} LiveOnlyKnows(ps: seq<Proc>, os: Os, x: nat)
    ensures HasPid(LiveOnly(ps, os), x) <==> HasPid(ps, x) && x in os.alive
  {
    if ps != [] {
      var init, last := ps[..|ps| - 1], ps[|ps| - 1];
      LiveOnlyKnows(init, os, x);
      HasPidLast(ps, x);
      HasPidSnoc(LiveOnly(init, os), last, x);
      assert LiveOnly(init, os) + [] == LiveOnly(init, os);
    }
  }

  lemma {:induction false} LiveOnlyNoDup(ps: seq<Proc>, os: Os)
    requires NoDup(ps)
    ensures NoDup(LiveOnly(ps, os))
  {
    if ps != [] {
      var init, last := ps[..|ps| - 1], ps[|ps| - 1];
      LiveOnlyNoDup(init, os);
      LiveOnlyKnows(init, os, last.pid);
      NoDupSnoc(LiveOnly(init, os), last);
      assert LiveOnly(init, os) + [] == LiveOnly(init, os);
    }
  }

  lemma PruneOwned(ss: seq<Svc>, i: nat, os: Os)
    requires Owned(ss) && i < |ss|
    ensures Owned(ss[i := ss[i].(subs := LiveOnly(ss[i].subs, os))])
  {
    var t := ss[i].(subs := LiveOnly(ss[i].subs, os));
    LiveOnlyNoDup(ss[i].subs, os);
    forall x: nat
      ensures HasPid(t.subs, x) ==> HasPid(ss[i].subs, x)
    {
      LiveOnlyKnows(ss[i].subs, os, x);
    }
    ReplaceOwned(ss, i, t);
  }

  lemma ApplyOwned(ss: seq<Svc>, step: Step)
    requires Owned(ss)
    ensures Owned(Apply(ss, step))
  {
    hide Visit, DetectUnit;
    match step {
      case Entry(pid, env) => VisitOwned(ss, pid, env);
      case Unit(pid, unit, env) => UnitOwned(ss, pid, unit, env);
      case Prune(i, os) =>
        if i < |ss| {
          PruneOwned(ss, i, os);
        }
    }
  }

  // ---------------------------------------------------------------- whole runs

  /** The list of services right after the configuration was read. */
  ghost predicate Configured(ss: seq<Svc>) {
    forall i :: 0 <= i < |ss| ==> ss[i].subs == [] && forall m :: m in ss[i].mains ==> m.pid == 0
  }

  /** In every reachable state each non-zero pid is filed at most once, over all services and over
      the main and sub lists of each. */
  lemma {:induction false} EveryPidOnce(ss: seq<Svc>, steps: seq<Step>)
    requires Configured(ss)
    ensures Owned(Run(ss, steps))
  {
    if steps != [] {
      EveryPidOnce(ss, steps[..|steps| - 1]);
      ApplyOwned(Run(ss, steps[..|steps| - 1]), steps[|steps| - 1]);
    }
  }

  /** What `Owned` means slot by slot: two slots with the same non-zero pid are one slot. */
  lemma OwnedSlots(ss: seq<Svc>, i: nat, j: nat, a: nat, b: nat)
    requires Owned(ss) && i < |ss| && j < |ss|
    requires a < |ss[i].mains + ss[i].subs| && b < |ss[j].mains + ss[j].subs|
    requires (ss[i].mains + ss[i].subs)[a].pid == (ss[j].mains + ss[j].subs)[b].pid != 0
    ensures i == j && a == b
  {
    var x := (ss[i].mains + ss[i].subs)[a].pid;
    SlotHasPid(ss[i], a);
    SlotHasPid(ss[j], b);
    assert HavePid(ss[i], x) && HavePid(ss[j], x);
  }

  lemma SlotHasPid(s: Svc, a: nat)
    requires a < |s.mains + s.subs|
    ensures a < |s.mains| ==> HasPid(s.mains, (s.mains + s.subs)[a].pid)
    ensures a >= |s.mains| ==> HasPid(s.subs, (s.mains + s.subs)[a].pid)
  {
    if a < |s.mains| {
      assert s.mains[a] == (s.mains + s.subs)[a];
    } else {
      assert s.subs[a - |s.mains|] == (s.mains + s.subs)[a];
    }
  }
}
