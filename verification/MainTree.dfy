/** The main processes of a service are independent of each other: as long as the host reports
    the same parents, none of them is the parent of another. */
module MainTree {
  import opened ServiceModel
  import opened Ownership
  import opened OwnershipRuns

  /** No process of the list with a non-zero pid is the parent of another one. */
  ghost predicate NoParent(mains: seq<Proc>, os: Os) {
    forall x: nat, y: nat :: x != 0 && x != y && HasPid(mains, x) && HasPid(mains, y) ==> os.Ppid(y) != x
  }

  lemma NoParentSubset(ps: seq<Proc>, qs: seq<Proc>, os: Os)
    requires NoParent(ps, os) && forall x: nat :: HasPid(qs, x) ==> HasPid(ps, x)
    ensures NoParent(qs, os)
  {
  }

  lemma AddMainIndependent(s: Svc, p: Proc, os: Os)
    requires NoParent(s.mains, os) && os.Ppid(0) == 0
    ensures NoParent(AddMain(s, p, os).mains, os)
  {
    var named := if |s.mains| == 0 && s.name == "" then s.(name := BaseName(p.path)) else s;
    if p.pid == 0 || !HasPid(named.mains, os.Ppid(p.pid)) {
      var kept := if p.pid == 0 then s.mains else Independent(s.mains, p.pid, os);
      assert AddMain(s, p, os).mains == kept + [p];
      forall x: nat, y: nat | x != 0 && x != y && HasPid(kept + [p], x) && HasPid(kept + [p], y)
        ensures os.Ppid(y) != x
      {
        HasPidSnoc(kept, p, x);
        HasPidSnoc(kept, p, y);
        IndependentKnows(s.mains, p.pid, os, x);
        IndependentKnows(s.mains, p.pid, os, y);
      }
    }
  }

  lemma UpdateMainIndependent(s: Svc, p: Proc, os: Os)
    requires NoParent(s.mains, os) && os.Ppid(0) == 0
    ensures NoParent(UpdateMain(s, p, os).mains, os)
  {
    hide AddMain;
    forall x: nat | HasPid(EraseDead(s, p.path, os).mains, x)
      ensures HasPid(s.mains, x)
    {
      EraseDeadKnows(s, p.path, os, x);
    }
    NoParentSubset(s.mains, EraseDead(s, p.path, os).mains, os);
    AddMainIndependent(EraseDead(s, p.path, os), p, os);
  }

  lemma {:induction false} MergeMainsIndependent(s: Svc, ps: seq<Proc>, os: Os)
    requires NoParent(s.mains, os) && os.Ppid(0) == 0
    ensures NoParent(MergeMains(s, ps, os).mains, os)
  {
    hide UpdateMain;
    if ps != [] {
      MergeMainsIndependent(s, ps[..|ps| - 1], os);
      UpdateMainIndependent(MergeMains(s, ps[..|ps| - 1], os), ps[|ps| - 1], os);
    }
  }

  lemma UpdateFromIndependent(s: Svc, src: Svc, os: Os)
    requires NoParent(s.mains, os) && os.Ppid(0) == 0
    ensures NoParent(UpdateFrom(s, src, os).mains, os)
  {
    hide MergeSockets, MergeMains;
    MergeMainsIndependent(s, src.mains, os);
    SocketsFrame(MergeMains(s, src.mains, os), src.sockets);
  }

  // ---------------------------------------------------------------- runs

  ghost predicate AllIndependent(ss: seq<Svc>, os: Os) {
    forall i :: 0 <= i < |ss| ==> NoParent(ss[i].mains, os)
  }

  ghost function OsOf(step: Step): Os {
    match step
    case Entry(_, env) => env.os
    case Unit(_, _, env) => env.os
    case Prune(_, os) => os
  }

  lemma SingleMainIndependent(serv: Svc, p: Proc, os: Os)
    requires serv.mains == [p]
    ensures NoParent(serv.mains, os)
  {
    assert forall x: nat :: HasPid(serv.mains, x) ==> x == p.pid;
  }

  lemma AddServiceIndependent(ss: seq<Svc>, serv: Svc, env: Env)
    requires AllIndependent(ss, env.os) && NoParent(serv.mains, env.os) && env.os.Ppid(0) == 0
    ensures AllIndependent(AddService(ss, serv, env), env.os)
  {
    hide AddService, UpdateFrom, NoParent;
    var add, tt := Rename(serv, env.enhance(serv)), AddService(ss, serv, env);
    AddServiceCases(ss, serv, env);
    if tt != ss + [add] {
      var i :| 0 <= i < |ss| && tt == ss[i := UpdateFrom(ss[i], add, env.os)];
      UpdateFromIndependent(ss[i], add, env.os);
    }
  }

  lemma VisitIndependent(ss: seq<Svc>, pid: nat, env: Env)
    requires AllIndependent(ss, env.os) && env.os.Ppid(0) == 0
    ensures AllIndependent(Visit(ss, pid, env), env.os)
  {
    hide Visit, AddService, AddHeld, RefreshIn, Detected;
    VisitCases(ss, pid, env);
    match VisitOutcome(ss, pid, env) {
      case Update(i, t) =>
        RefreshInKnows(ss[i], pid, env.os);
        AddHeldFrame(RefreshIn(ss[i], pid, env.os), env.table, env.os);
      case Child(i, t) =>
      case Ignored =>
      case Created(serv, p) =>
        DetectedAgain(ss, pid, env);
        SingleMainIndependent(serv, p, env.os);
        AddServiceIndependent(ss, serv, env);
    }
  }

  lemma ApplyIndependent(ss: seq<Svc>, step: Step)
    requires AllIndependent(ss, OsOf(step)) && OsOf(step).Ppid(0) == 0
    ensures AllIndependent(Apply(ss, step), OsOf(step))
  {
    hide Visit, AddService, AddMain, NoParent;
    match step {
      case Entry(pid, env) => VisitIndependent(ss, pid, env);
      case Unit(pid, unit, env) =>
        var p := NewProc(pid, env.os);
        var serv := AddMain(Blank(env.host).(uniq := unit), p, env.os);
        FirstMain(Blank(env.host).(uniq := unit), p, env.os);
        SingleMainIndependent(serv, p, env.os);
        AddServiceIndependent(ss, serv, env);
      case Prune(i, os) =>
    }
  }

  lemma SameParents(ss: seq<Svc>, a: Os, b: Os)
    requires a.parents == b.parents && AllIndependent(ss, a)
    ensures AllIndependent(ss, b)
  {
    assert forall y :: a.Ppid(y) == b.Ppid(y);
  }

  /** In every state reached while the parents stay as `os` reports them, from services whose
      processes come from the configuration, no main process is the parent of another. */
  lemma {:induction false} MainsNeverParentAndChild(ss: seq<Svc>, steps: seq<Step>, os: Os)
    requires Configured(ss) && 0 !in os.parents
    requires forall i :: 0 <= i < |steps| ==> OsOf(steps[i]).parents == os.parents
    ensures AllIndependent(Run(ss, steps), os)
  {
    hide Apply;
    if steps == [] {
      forall i | 0 <= i < |ss|
        ensures NoParent(ss[i].mains, os)
      {
        assert forall x: nat :: HasPid(ss[i].mains, x) ==> x == 0;
      }
    } else {
      var init, last := steps[..|steps| - 1], steps[|steps| - 1];
      MainsNeverParentAndChild(ss, init, os);
      SameParents(Run(ss, init), os, OsOf(last));
      ApplyIndependent(Run(ss, init), last);
      SameParents(Run(ss, steps), OsOf(last), os);
    }
  }
}
