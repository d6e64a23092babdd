/** `servicesManager` and the scan of its socket detector, updating the list of services in place. */
module ManagerClass {
  import opened ServiceModel
  import opened ServiceClass

  function Views(ss: seq<Service>): (r: seq<Svc>)
    reads ss
    ensures |r| == |ss| && forall i :: 0 <= i < |ss| ==> r[i] == ss[i].View()
  {
    if ss == [] then [] else Views(ss[..|ss| - 1]) + [ss[|ss| - 1].View()]
  }

  class Manager {
    var services: seq<Service>

    function View(): seq<Svc>
      reads this, services
    {
      Views(services)
    }

    /** No two entries of the list are the same object. */
    ghost predicate Valid()
      reads this
    {
      forall i, j :: 0 <= i < j < |services| ==> services[i] != services[j]
    }

    constructor ()
      ensures Valid() && View() == []
    {
      services := [];
    }

    /** `getService`; null stands for the answer "no" of `havePID`. */
    method GetServiceOf(pid: nat) returns (s: Service?, at: int)
      ensures at == GetService(View(), pid) && s == if at >= 0 then services[at] else null
    {
      hide HavePid, Views;
      for i := 0 to |services|
        invariant forall j :: 0 <= j < i ==> !HavePid(services[j].View(), pid)
      {
        var found := services[i].HavePID(pid);
        if found {
          return services[i], i;
        }
      }
      return null, -1;
    }

    method MergeAt(i: nat, add: Service, os: Os)
      requires Valid() && i < |services| && add !in services
      modifies services[i]
      ensures View() == old(View())[i := UpdateFrom(old(View())[i], add.View(), os)]
    {
      hide UpdateFrom, Views;
      services[i].UpdateFromService(add, os);
    }

    /** The service that takes the new one over: one it equals, else one it is a part of. */
    method Recipient(add: Service, os: Os) returns (r: int)
      ensures var i, j := MatchIndex(View(), add.View()), NeedIndex(View(), add.View(), os);
        r == if i >= 0 then i else j
    {
      hide Matches, NeedSocketFrom, Views;
      for i := 0 to |services|
        invariant forall j :: 0 <= j < i ==> !Matches(add.View(), services[j].View())
      {
        var same := add.Equals(services[i]);
        if same {
          return i;
        }
      }
      for i := 0 to |services|
        invariant forall j :: 0 <= j < i ==> !NeedSocketFrom(services[j].View(), add.View(), os)
      {
        var needs := services[i].NeedsSocketFrom(add, os);
        if needs {
          return i;
        }
      }
      return -1;
    }

    method TakeService(add: Service, os: Os)
      requires Valid() && add !in services
      modifies this, services
      ensures Valid() && View() == Take(old(View()), add.View(), os) && add.View() == old(add.View())
      ensures forall s :: s in services ==> s in old(services) || s == add
    {
      hide UpdateFrom, MatchIndex, NeedIndex, Views;
      var r := Recipient(add, os);
      if r >= 0 {
        MergeAt(r, add, os);
      } else {
        services := services + [add];
        assert View() == old(View()) + [add.View()];
      }
    }

    method AddService(serv: Service, env: Env)
      requires Valid() && serv !in services
      modifies this, services, serv
      ensures Valid() && View() == ServiceModel.AddService(old(View()), old(serv.View()), env)
      ensures forall s :: s in services ==> s in old(services) || s == serv
    {
      hide Take, Views;
      var n := env.enhance(serv.View());
      serv.name, serv.kind, serv.uniqName, serv.host := n.name, n.kind, n.uniq, n.host;
      TakeService(serv, env.os);
    }

    method HandleSubProcess(p: Proc, os: Os)
      requires Valid()
      modifies services
      ensures View() == ServiceModel.HandleSubProcess(old(View()), p, os)
    {
      hide AddSub, Views;
      var s, i := GetServiceOf(os.Ppid(p.pid));
      if s != null {
        s.AddSubProcess(p);
        assert View() == old(View())[i := AddSub(old(View())[i], p)];
      }
    }

    /** The service found around a process that holds a socket of the table. */
    method Detect(p: Proc, k: Sock, env: Env) returns (serv: Service)
      ensures fresh(serv) && serv.View() == Detected(p, k, env)
    {
      hide AddHeld, AddMain, SetSocket;
      serv := new Service(env.host);
      serv.SetSock(k);
      serv.AddMainProcess(p, env.os);
      serv.AddHeldSockets(env.table, env.os);
    }

    method IsListed(p: Proc, rules: seq<Rule>) returns (r: bool)
      ensures r <==> Listed(p, rules)
    {
      hide BaseName;
      for i := 0 to |rules|
        invariant forall j :: 0 <= j < i ==> !RuleMatches(p, rules[j])
      {
        if RuleMatches(p, rules[i]) {
          return true;
        }
      }
      return false;
    }

    /** An entry whose process is known: its descriptors and the sockets of its service are updated. */
    method UpdateKnown(i: nat, pid: nat, env: Env)
      requires Valid() && i < |services|
      modifies services[i]
      ensures var was := old(View());
        View() == was[i := AddHeld(RefreshIn(was[i], pid, env.os), env.table, env.os)]
    {
      hide Views, AddHeld, RefreshIn;
      services[i].RefreshProcess(pid, env.os);
      services[i].AddHeldSockets(env.table, env.os);
    }

    /** An entry that is neither known, nor a child, nor black-listed. */
    method DetectNew(p: Proc, env: Env)
      requires Valid()
      modifies this, services
      ensures var h := HeldIndex(env.table, p.fds);
        View() == if h < 0 then old(View()) else ServiceModel.AddService(old(View()), Detected(p, env.table[h], env), env)
      ensures Valid() && forall s :: s in services ==> s in old(services) || fresh(s)
    {
      hide Views, Detected, ServiceModel.AddService;
      for h := 0 to |env.table|
        invariant View() == old(View()) && services == old(services)
        invariant forall l :: 0 <= l < h ==> env.table[l].id !in p.fds
      {
        var held := HasDescriptor(p, env.table[h].id);
        if held {
          var found := Detect(p, env.table[h], env);
          assert View() == old(View());
          AddService(found, env);
          return;
        }
      }
    }

    /** The body of the scan's loop over the process directory. */
    method VisitEntry(pid: nat, env: Env)
      requires Valid()
      modifies this, services
      ensures Valid() && View() == Visit(old(View()), pid, env)
      ensures forall s :: s in services ==> s in old(services) || fresh(s)
    {
      hide Views, AddHeld, RefreshIn, Detected, Refresh, Listed, HeldIndex, ServiceModel.AddService, GetService;
      var serv, i := GetServiceOf(pid);
      if serv != null {
        UpdateKnown(i, pid, env);
        return;
      }
      var p := NewProc(pid, env.os);
      var parent, j := GetServiceOf(env.os.Ppid(pid));
      if parent != null {
        HandleSubProcess(p, env.os);
        return;
      }
      var listed := IsListed(p, env.rules);
      if !listed {
        p := SetSockets(p, env.os);
        DetectNew(p, env);
      }
    }

    /** The body of the loop over the units of the service manager. */
    method VisitUnit(pid: nat, unit: string, env: Env)
      requires Valid()
      modifies this, services
      ensures Valid() && View() == DetectUnit(old(View()), pid, unit, env)
      ensures forall s :: s in services ==> s in old(services) || fresh(s)
    {
      hide Views, GetService, AddMain, BaseName, ServiceModel.AddService;
      var known, i := GetServiceOf(pid);
      if known != null {
        return;
      }
      var p := NewProc(pid, env.os);
      if BaseName(p.path) == "" {
        return;
      }
      var serv := new Service(env.host);
      serv.uniqName := unit;
      serv.AddMainProcess(p, env.os);
      assert View() == old(View());
      AddService(serv, env);
    }

    /** Asking a service for its pids. */
    method PidsOfService(i: nat, os: Os) returns (pids: seq<nat>)
      requires Valid() && i < |services|
      modifies services[i]
      ensures View() == Apply(old(View()), Prune(i, os))
      ensures pids == PidsOf(View()[i].mains) + PidsOf(View()[i].subs)
    {
      hide Views, LiveOnly;
      pids := services[i].GetPIDs(os);
      assert View() == old(View())[i := services[i].View()];
    }

    /** `socketDetector::find` over a directory listing. */
    method Find(pids: seq<nat>, env: Env)
      requires Valid()
      modifies this, services
      ensures Valid() && View() == Pass(old(View()), pids, env)
    {
      hide Visit, Views, VisitAll;
      if |env.table| < 1 {
        return;
      }
      ghost var was := View();
      VisitedNone(was, pids, env);
      for n := 0 to |pids|
        invariant Valid() && View() == VisitAll(was, pids[..n], env)
        invariant forall s :: s in services ==> s in old(services) || fresh(s)
      {
        VisitedOne(was, pids, n, env);
        ghost var before := services;
        assert forall i :: 0 <= i < |services| ==> services[i] in old(services) || fresh(services[i]);
        label entry:
        VisitEntry(pids[n], env);
        forall s | s in services
          ensures s in old(services) || fresh(s)
        {
          assert s in before || fresh@entry(s);
        }
      }
      assert pids[..|pids|] == pids;
    }
  }

  lemma VisitedNone(ss: seq<Svc>, pids: seq<nat>, env: Env)
    ensures VisitAll(ss, pids[..0], env) == ss
  {
  }

  lemma VisitedOne(ss: seq<Svc>, pids: seq<nat>, n: nat, env: Env)
    requires n < |pids|
    ensures VisitAll(ss, pids[..n + 1], env) == Visit(VisitAll(ss, pids[..n], env), pids[n], env)
  {
    assert pids[..n + 1][..n] == pids[..n];
  }
}
