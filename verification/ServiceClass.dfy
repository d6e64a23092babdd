/** `service` as an object updated in place: each method is proved to change the object the way the
    value model says. A process is a value here; reading its descriptors again replaces it. */
module ServiceClass {
  import opened Sequences
  import opened SocketCodec
  import opened ServiceModel
  import C = ServiceConfig

  method HasDescriptor(p: Proc, id: nat) returns (r: bool)
    ensures r <==> id in p.fds
  {
    for i := 0 to |p.fds|
      invariant id !in p.fds[..i]
    {
      if p.fds[i] == id {
        return true;
      }
    }
    return false;
  }

  /** `setSockets`. */
  method SetSockets(p: Proc, os: Os) returns (q: Proc)
    ensures q == Refresh(p, os)
  {
    if p.pid !in os.fds {
      return p;
    }
    var ids := os.fds[p.pid];
    q := p.(fds := []);
    for i := 0 to |ids|
      invariant q == p.(fds := Dedup(ids[..i]))
    {
      assert ids[..i + 1][..i] == ids[..i];
      var known := HasDescriptor(q, ids[i]);
      if !known {
        q := q.(fds := q.fds + [ids[i]]);
      }
    }
    assert ids[..|ids|] == ids;
  }

  lemma OneMoved(subs: seq<Proc>, mains: seq<Proc>, done: nat, pid: nat, os: Os)
    requires done < |mains|
    ensures var child := os.Ppid(mains[done].pid) == pid;
      && Independent(mains[..done + 1], pid, os)
           == Independent(mains[..done], pid, os) + (if child then [] else [mains[done]])
      && Adopt(subs, mains[..done + 1], pid, os)
           == if child then AddSubTo(Adopt(subs, mains[..done], pid, os), mains[done])
              else Adopt(subs, mains[..done], pid, os)
  {
    assert mains[..done + 1][..done] == mains[..done];
  }

  lemma NoneMoved(subs: seq<Proc>, mains: seq<Proc>, pid: nat, os: Os)
    ensures Independent(mains[..0], pid, os) == [] && Adopt(subs, mains[..0], pid, os) == subs
  {
  }

  lemma OneKept(subs: seq<Proc>, done: nat, os: Os)
    requires done < |subs|
    ensures LiveOnly(subs[..done + 1], os)
         == LiveOnly(subs[..done], os) + (if subs[done].pid in os.alive then [subs[done]] else [])
  {
    assert subs[..done + 1][..done] == subs[..done];
  }

  function PidsOf(ps: seq<Proc>): seq<nat> {
    if ps == [] then [] else PidsOf(ps[..|ps| - 1]) + [ps[|ps| - 1].pid]
  }

  lemma NoPids()
    ensures PidsOf([]) == []
  {
  }

  lemma NoneKept(subs: seq<Proc>, os: Os)
    ensures LiveOnly(subs[..0], os) == []
  {
  }

  lemma PidsAppend(ps: seq<Proc>, p: Proc)
    ensures PidsOf(ps + [p]) == PidsOf(ps) + [p.pid]
  {
    assert (ps + [p])[..|ps|] == ps;
  }

  class Service {
    var name: string
    var kind: string
    var uniqName: string
    var host: string
    var sockets: seq<Sock>
    var mainProcess: seq<Proc>
    var subProcess: seq<Proc>

    function View(): Svc
      reads this
    {
      Svc(name, kind, uniqName, host, sockets, mainProcess, subProcess)
    }

    constructor (host: string)
      ensures View() == Blank(host)
    {
      name, kind, uniqName, this.host := "", "unknown", "", host;
      sockets, mainProcess, subProcess := [], [], [];
    }

    // ------------------------------------------------------------ queries

    method HavePID(pid: nat) returns (r: bool)
      ensures r <==> HavePid(View(), pid)
    {
      for i := 0 to |mainProcess|
        invariant forall j :: 0 <= j < i ==> mainProcess[j].pid != pid
      {
        if mainProcess[i].pid == pid {
          return true;
        }
      }
      for i := 0 to |subProcess|
        invariant forall j :: 0 <= j < i ==> subProcess[j].pid != pid
      {
        if subProcess[i].pid == pid {
          return true;
        }
      }
      return false;
    }

    method HaveSocketId(id: nat, os: Os) returns (r: bool)
      ensures r <==> HaveSocket(View(), id, os)
    {
      for i := 0 to |mainProcess|
        invariant forall j :: 0 <= j < i ==> !(mainProcess[j].pid in os.alive && id in mainProcess[j].fds)
      {
        if mainProcess[i].pid in os.alive {
          var held := HasDescriptor(mainProcess[i], id);
          if held {
            return true;
          }
        }
      }
      return false;
    }

    method HaveSource(source: string) returns (r: bool)
      ensures r <==> HasSource(sockets, source)
    {
      hide Source;
      for i := 0 to |sockets|
        invariant forall j :: 0 <= j < i ==> Source(sockets[j]) != source
      {
        if Source(sockets[i]) == source {
          return true;
        }
      }
      return false;
    }

    /** `*this == *other`. */
    method Equals(other: Service) returns (r: bool)
      ensures r <==> Matches(View(), other.View())
    {
      hide Source, HasSource;
      if name != other.name || kind != other.kind {
        return false;
      }
      for i := 0 to |sockets|
        invariant forall j :: 0 <= j < i ==> HasSource(other.sockets, Source(sockets[j]))
      {
        var found := other.HaveSource(Source(sockets[i]));
        if !found {
          return false;
        }
      }
      return true;
    }

    method NeedsSocketFrom(other: Service, os: Os) returns (r: bool)
      ensures r <==> NeedSocketFrom(View(), other.View(), os)
    {
      hide Source, HasSource, HaveSocket;
      for i := 0 to |sockets|
        invariant forall j :: 0 <= j < i ==> HaveSocket(View(), sockets[j].id, os) || !HasSource(other.sockets, Source(sockets[j]))
      {
        var working := HaveSocketId(sockets[i].id, os);
        if !working {
          var wanted := other.HaveSource(Source(sockets[i]));
          if wanted {
            return true;
          }
        }
      }
      return false;
    }

    // ------------------------------------------------------------ sockets

    method SetSock(k: Sock)
      modifies this
      ensures View() == SetSocket(old(View()), k)
    {
      hide Source, HasSource, UniqName;
      if |sockets| == 0 && uniqName == "" {
        uniqName := UniqName(k.endpoint);
      }
      var known := HaveSource(Source(k));
      if !known {
        sockets := sockets + [k];
      }
    }

    method ForgetSource(source: string)
      modifies this
      ensures View() == EraseSource(old(View()), source)
    {
      hide Source;
      for j := 0 to |sockets|
        invariant View() == old(View())
        invariant forall i :: 0 <= i < j ==> Source(sockets[i]) != source
      {
        if Source(sockets[j]) == source {
          sockets := Erase(sockets, j);
          return;
        }
      }
    }

    /** Adds the sockets of the table that a live main process holds. */
    method AddHeldSockets(table: seq<Sock>, os: Os)
      modifies this
      ensures View() == AddHeld(old(View()), table, os)
    {
      hide SetSocket, HaveSocket;
      for i := 0 to |table|
        invariant View() == AddHeld(old(View()), table[..i], os)
      {
        assert table[..i + 1][..i] == table[..i];
        var held := HaveSocketId(table[i].id, os);
        if held {
          SetSock(table[i]);
        }
      }
      assert table[..|table|] == table;
    }

    // ------------------------------------------------------------ processes

    /** Reads the descriptors of the process with this pid again. */
    method RefreshProcess(pid: nat, os: Os)
      modifies this
      ensures View() == RefreshIn(old(View()), pid, os)
    {
      hide Refresh;
      for i := 0 to |mainProcess|
        invariant View() == old(View())
        invariant forall j :: 0 <= j < i ==> mainProcess[j].pid != pid
      {
        if mainProcess[i].pid == pid {
          var p := SetSockets(mainProcess[i], os);
          mainProcess := mainProcess[i := p];
          return;
        }
      }
      for i := 0 to |subProcess|
        invariant View() == old(View())
        invariant forall j :: 0 <= j < i ==> subProcess[j].pid != pid
      {
        if subProcess[i].pid == pid {
          var p := SetSockets(subProcess[i], os);
          subProcess := subProcess[i := p];
          return;
        }
      }
    }

    method AddSubProcess(p: Proc)
      modifies this
      ensures View() == AddSub(old(View()), p)
    {
      for i := 0 to |subProcess|
        invariant View() == old(View())
        invariant forall j :: 0 <= j < i ==> subProcess[j].pid != p.pid
      {
        if subProcess[i].pid == p.pid {
          return;
        }
      }
      subProcess := subProcess + [p];
    }

    /** Files the main processes that are children of `pid` as sub-processes, erasing them from the
        list it walks over. */
    method DemoteChildren(pid: nat, os: Os)
      modifies this
      ensures var was := old(View());
        View() == was.(mains := Independent(was.mains, pid, os), subs := Adopt(was.subs, was.mains, pid, os))
    {
      hide Independent, Adopt, AddSubTo, Erase;
      ghost var was := View();
      ghost var kept: seq<Proc>, rest: seq<Proc>, done := [], mainProcess, 0;
      var i := 0;
      NoneMoved(was.subs, was.mains, pid, os);
      assert kept + rest == mainProcess;
      while i < |mainProcess|
        invariant mainProcess == kept + rest && i == |kept|
        invariant done + |rest| == |was.mains| && rest == was.mains[done..]
        invariant kept == Independent(was.mains[..done], pid, os)
        invariant View() == was.(mains := mainProcess, subs := Adopt(was.subs, was.mains[..done], pid, os))
        decreases |mainProcess| - i
      {
        Advanced(was.mains, done);
        var p := mainProcess[i];
        AtIterator(kept, rest);
        OneMoved(was.subs, was.mains, done, pid, os);
        if os.Ppid(p.pid) == pid {
          AddSubProcess(p);
          mainProcess := Erase(mainProcess, i);
        } else {
          kept := kept + [p];
          i := i + 1;
        }
        rest, done := rest[1..], done + 1;
      }
      assert kept == mainProcess && was.mains[..done] == was.mains;
    }

    method AddMainProcess(p: Proc, os: Os)
      modifies this
      ensures View() == AddMain(old(View()), p, os)
    {
      hide Independent, Adopt, AddSubTo, BaseName;
      if |mainProcess| == 0 && name == "" {
        name := BaseName(p.path);
      }
      ghost var named := View();
      if p.pid != 0 {
        for i := 0 to |mainProcess|
          invariant View() == named
          invariant forall j :: 0 <= j < i ==> mainProcess[j].pid != os.Ppid(p.pid)
        {
          if mainProcess[i].pid == os.Ppid(p.pid) {
            AddSubProcess(p);
            return;
          }
        }
        DemoteChildren(p.pid, os);
      }
      mainProcess := mainProcess + [p];
    }

    method UpdateMainProcess(p: Proc, os: Os)
      modifies this
      ensures View() == UpdateMain(old(View()), p, os)
    {
      hide AddMain;
      for j := 0 to |mainProcess|
        invariant View() == old(View())
        invariant forall i :: 0 <= i < j ==> !(mainProcess[i].pid !in os.alive && mainProcess[i].path == p.path)
      {
        if mainProcess[j].pid !in os.alive && mainProcess[j].path == p.path {
          mainProcess := Erase(mainProcess, j);
          break;
        }
      }
      assert View() == EraseDead(old(View()), p.path, os);
      AddMainProcess(p, os);
    }

    method UpdateFromService(src: Service, os: Os)
      requires src != this
      modifies this
      ensures View() == UpdateFrom(old(View()), src.View(), os)
    {
      hide UpdateMain, SetSocket, EraseSource, Source;
      ghost var was, from := View(), src.View();
      for i := 0 to |src.mainProcess|
        invariant src.View() == from
        invariant View() == MergeMains(was, from.mains[..i], os)
      {
        assert from.mains[..i + 1][..i] == from.mains[..i];
        UpdateMainProcess(src.mainProcess[i], os);
      }
      assert from.mains[..|from.mains|] == from.mains;
      ghost var merged := View();
      for i := 0 to |src.sockets|
        invariant src.View() == from
        invariant View() == MergeSockets(merged, from.sockets[..i])
      {
        assert from.sockets[..i + 1][..i] == from.sockets[..i];
        ForgetSource(Source(src.sockets[i]));
        SetSock(src.sockets[i]);
      }
      assert from.sockets[..|from.sockets|] == from.sockets;
    }

    method MainPids() returns (pids: seq<nat>)
      ensures pids == PidsOf(mainProcess)
    {
      hide PidsOf;
      pids := [];
      NoPids();
      for i := 0 to |mainProcess|
        invariant pids == PidsOf(mainProcess[..i])
      {
        assert mainProcess[..i + 1] == mainProcess[..i] + [mainProcess[i]];
        PidsAppend(mainProcess[..i], mainProcess[i]);
        pids := pids + [mainProcess[i].pid];
      }
      assert mainProcess[..|mainProcess|] == mainProcess;
    }

    /** `getPIDs`: the pids of the service, after the dead sub-processes were dropped. */
    method GetPIDs(os: Os) returns (pids: seq<nat>)
      modifies this
      ensures View() == old(View()).(subs := LiveOnly(old(View()).subs, os))
      ensures pids == PidsOf(mainProcess) + PidsOf(subProcess)
    {
      hide LiveOnly, Erase, PidsOf;
      var mains := MainPids();
      var subs: seq<nat> := [];
      ghost var was := View();
      ghost var kept: seq<Proc>, rest: seq<Proc>, done := [], subProcess, 0;
      var i := 0;
      NoPids();
      NoneKept(was.subs, os);
      assert kept + rest == subProcess;
      while i < |subProcess|
        invariant subProcess == kept + rest && i == |kept|
        invariant done <= |was.subs| && rest == was.subs[done..]
        invariant kept == LiveOnly(was.subs[..done], os)
        invariant View() == was.(subs := subProcess)
        invariant subs == PidsOf(kept)
        decreases |subProcess| - i
      {
        var p := subProcess[i];
        AtIterator(kept, rest);
        OneKept(was.subs, done, os);
        if p.pid !in os.alive {
          subProcess := Erase(subProcess, i);
        } else {
          PidsAppend(kept, p);
          subs := subs + [p.pid];
          kept := kept + [p];
          i := i + 1;
        }
        rest, done := rest[1..], done + 1;
      }
      assert kept == subProcess && was.subs[..done] == was.subs;
      return mains + subs;
    }

    // ------------------------------------------------------------ configuration

    /** `setDefaultConfig`. */
    method SetDefaultConfig() returns (cfg: C.Config)
      ensures cfg == C.Save(View())
    {
      hide Source;
      var lines: seq<string>, paths: seq<string> := [], [];
      for i := 0 to |sockets|
        invariant lines == C.Sources(sockets[..i])
      {
        assert sockets[..i + 1][..i] == sockets[..i];
        lines := lines + [Source(sockets[i])];
      }
      assert sockets[..|sockets|] == sockets;
      for i := 0 to |mainProcess|
        invariant paths == C.Paths(mainProcess[..i])
      {
        assert mainProcess[..i + 1][..i] == mainProcess[..i];
        paths := paths + [mainProcess[i].path];
      }
      assert mainProcess[..|mainProcess|] == mainProcess;
      cfg := C.Config(lines, paths, C.Present(uniqName), C.Present(host));
    }

    /** The socket lines of a configuration, up to the first that throws. */
    method LoadSocketLines(lines: seq<string>, memory: nat -> C.Memory) returns (ok: bool)
      modifies this
      ensures var r := C.LoadSockets(old(View()), lines, memory);
        ok == r.Ok? && (ok ==> View() == r.value)
    {
      hide FromSource, SetSocket;
      ghost var was := View();
      for i := 0 to |lines|
        invariant C.LoadSockets(was, lines[..i], memory) == Ok(View())
      {
        assert lines[..i + 1][..i] == lines[..i];
        var r := FromSource(lines[i], memory(i).stale);
        if !r.Ok? {
          C.UnreadableLine(was, lines, i + 1, memory);
          return false;
        }
        SetSock(Sock(memory(i).id, r.value));
      }
      assert lines[..|lines|] == lines;
      return true;
    }

    method LoadProcesses(paths: seq<string>)
      modifies this
      ensures View() == C.LoadMains(old(View()), paths)
    {
      hide AddMain;
      ghost var was := View();
      for i := 0 to |paths|
        invariant View() == C.LoadMains(was, paths[..i])
      {
        assert paths[..i + 1][..i] == paths[..i];
        AddMainProcess(Proc(0, paths[i], []), Os(map[], {}, map[], map[]));
      }
      assert paths[..|paths|] == paths;
    }

    method LoadFields(cfg: C.Config, machine: string)
      modifies this
      ensures View() == C.LoadRest(old(View()), cfg, machine)
    {
      hide C.LoadMains;
      if cfg.uniqName.Present? {
        uniqName := cfg.uniqName.value;
      }
      if cfg.host.Present? {
        host := cfg.host.value;
      }
      LoadProcesses(cfg.process);
      if host == "" {
        host := machine;
      }
    }
  }

  /** The constructor from a configuration; null when a socket line throws. */
  method FromConfig(cfg: C.Config, memory: nat -> C.Memory, machine: string) returns (s: Service?)
    ensures var r := C.Load(cfg, memory, machine);
      (s != null <==> r.Ok?) && (s != null ==> fresh(s) && s.View() == r.value)
  {
    hide C.LoadSockets, C.LoadRest;
    s := new Service("");
    var ok := s.LoadSocketLines(cfg.sockets, memory);
    if !ok {
      return null;
    }
    s.LoadFields(cfg, machine);
  }
}
