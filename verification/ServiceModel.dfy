/** The agent's picture of the host, as values: services, their processes and sockets, and what
    each operation of `service` and `servicesManager` makes of them. */
module ServiceModel {
  import opened Sequences
  import opened Text
  import opened SocketCodec

  // ---------------------------------------------------------------- the operating system

  /** What `/proc` answers at one moment. A pid missing from `fds` is one whose descriptor
      directory cannot be opened. */
  datatype Os = Os(parents: map<nat, nat>, alive: set<nat>, exes: map<nat, string>, fds: map<nat, seq<nat>>) {

    /** `getPPID`: 0 for a process that is gone. */
    function Ppid(pid: nat): nat {
      if pid in parents then parents[pid] else 0
    }

    /** The executable, without the mark of a replaced file. */
    function Exe(pid: nat): string {
      if pid !in exes then ""
      else
        var link := exes[pid];
        if |link| > 9 && link[|link| - 9..] == "(deleted)" then link[..|link| - 10] else link
    }
  }

  // ---------------------------------------------------------------- entities

  datatype Sock = Sock(id: nat, endpoint: Endpoint)

  function Source(k: Sock): string {
    GetSource(k.endpoint)
  }

  datatype Proc = Proc(pid: nat, path: string, fds: seq<nat>)

  function BaseName(path: string): string {
    path[RFind(path, '/') + 1..]
  }

  datatype Svc = Svc(name: string, kind: string, uniq: string, host: string,
                     sockets: seq<Sock>, mains: seq<Proc>, subs: seq<Proc>)

  /** What the enhancers may change about a service. */
  datatype Names = Names(name: string, kind: string, uniq: string, host: string)

  /** An entry of the detector's black list. */
  datatype Rule = Rule(path: seq<string>, name: seq<string>)

  /** Everything one directory entry of a scan depends on besides the services. */
  datatype Env = Env(os: Os, table: seq<Sock>, rules: seq<Rule>, host: string, enhance: Svc -> Names)

  // ---------------------------------------------------------------- searching

  predicate HasPid(ps: seq<Proc>, pid: nat) {
    exists i :: 0 <= i < |ps| && ps[i].pid == pid
  }

  predicate HavePid(s: Svc, pid: nat) {
    HasPid(s.mains, pid) || HasPid(s.subs, pid)
  }

  predicate HasSource(sockets: seq<Sock>, source: string) {
    exists i :: 0 <= i < |sockets| && Source(sockets[i]) == source
  }

  /** A live main process holds the socket. */
  predicate HaveSocket(s: Svc, id: nat, os: Os) {
    exists i :: 0 <= i < |s.mains| && s.mains[i].pid in os.alive && id in s.mains[i].fds
  }

  // ---------------------------------------------------------------- processes of a service

  function AddSubTo(subs: seq<Proc>, p: Proc): seq<Proc> {
    if HasPid(subs, p.pid) then subs else subs + [p]
  }

  function AddSub(s: Svc, p: Proc): Svc {
    s.(subs := AddSubTo(s.subs, p))
  }

  /** The main processes that are not children of `pid`, in order. */
  function Independent(mains: seq<Proc>, pid: nat, os: Os): seq<Proc> {
    if mains == [] then []
    else
      var last := mains[|mains| - 1];
      Independent(mains[..|mains| - 1], pid, os) + (if os.Ppid(last.pid) == pid then [] else [last])
  }

  /** The sub-processes after the children of `pid` among `mains` were filed there. */
  function Adopt(subs: seq<Proc>, mains: seq<Proc>, pid: nat, os: Os): seq<Proc> {
    if mains == [] then subs
    else
      var last := mains[|mains| - 1];
      var t := Adopt(subs, mains[..|mains| - 1], pid, os);
      if os.Ppid(last.pid) == pid then AddSubTo(t, last) else t
  }

  function AddMain(s: Svc, p: Proc, os: Os): Svc {
    var named := if |s.mains| == 0 && s.name == "" then s.(name := BaseName(p.path)) else s;
    if p.pid != 0 && HasPid(named.mains, os.Ppid(p.pid)) then AddSub(named, p)
    else
      var t := if p.pid == 0 then named
               else named.(mains := Independent(named.mains, p.pid, os),
                           subs := Adopt(named.subs, named.mains, p.pid, os));
      t.(mains := t.mains + [p])
  }

  /** The first dead process that ran `path`. */
  function DeadIndex(mains: seq<Proc>, path: string, os: Os): (r: int)
    ensures -1 <= r < |mains|
    ensures r >= 0 ==> mains[r].pid !in os.alive && mains[r].path == path
    ensures forall i :: 0 <= i < (if r < 0 then |mains| else r) ==> !(mains[i].pid !in os.alive && mains[i].path == path)
  {
    First(mains, (m: Proc) => m.pid !in os.alive && m.path == path)
  }

  /** Forgets the first dead main process that ran the same program. */
  function EraseDead(s: Svc, path: string, os: Os): Svc {
    var i := DeadIndex(s.mains, path, os);
    if i < 0 then s else s.(mains := Erase(s.mains, i))
  }

  /** `updateMainProcess`, and the body of the first loop of `updateFrom`. */
  function UpdateMain(s: Svc, p: Proc, os: Os): Svc {
    AddMain(EraseDead(s, p.path, os), p, os)
  }

  function MergeMains(s: Svc, ps: seq<Proc>, os: Os): Svc {
    if ps == [] then s
    else UpdateMain(MergeMains(s, ps[..|ps| - 1], os), ps[|ps| - 1], os)
  }

  /** `getPIDs` forgets the sub-processes that are gone. */
  function LiveOnly(ps: seq<Proc>, os: Os): seq<Proc> {
    if ps == [] then []
    else LiveOnly(ps[..|ps| - 1], os) + (if ps[|ps| - 1].pid in os.alive then [ps[|ps| - 1]] else [])
  }

  // ---------------------------------------------------------------- sockets of a service

  function SetSocket(s: Svc, k: Sock): Svc {
    var keyed := if |s.sockets| == 0 && s.uniq == "" then s.(uniq := UniqName(k.endpoint)) else s;
    if HasSource(s.sockets, Source(k)) then keyed else keyed.(sockets := keyed.sockets + [k])
  }

  /** The first socket with this source. */
  function SourceIndex(ks: seq<Sock>, source: string): (r: int)
    ensures -1 <= r < |ks|
    ensures r >= 0 ==> Source(ks[r]) == source
    ensures forall i :: 0 <= i < (if r < 0 then |ks| else r) ==> !(Source(ks[i]) == source)
  {
    First(ks, (k: Sock) => Source(k) == source)
  }

  /** Forgets the first socket with this source. */
  function EraseSource(s: Svc, source: string): Svc {
    var i := SourceIndex(s.sockets, source);
    if i < 0 then s else s.(sockets := Erase(s.sockets, i))
  }

  function MergeSockets(s: Svc, ks: seq<Sock>): Svc {
    if ks == [] then s
    else
      var k := ks[|ks| - 1];
      SetSocket(EraseSource(MergeSockets(s, ks[..|ks| - 1]), Source(k)), k)
  }

  /** Adds every socket of the table that a live main process holds. */
  function AddHeld(s: Svc, table: seq<Sock>, os: Os): Svc {
    if table == [] then s
    else
      var t := AddHeld(s, table[..|table| - 1], os);
      var k := table[|table| - 1];
      if HaveSocket(t, k.id, os) then SetSocket(t, k) else t
  }

  function UpdateFrom(s: Svc, src: Svc, os: Os): Svc {
    MergeSockets(MergeMains(s, src.mains, os), src.sockets)
  }

  /** `*add == *s`. */
  predicate Matches(add: Svc, s: Svc) {
    && add.name == s.name
    && add.kind == s.kind
    && forall i :: 0 <= i < |add.sockets| ==> HasSource(s.sockets, Source(add.sockets[i]))
  }

  /** `s` lists a socket that none of its live main processes holds and `add` has it. */
  predicate NeedSocketFrom(s: Svc, add: Svc, os: Os) {
    exists i :: 0 <= i < |s.sockets| && !HaveSocket(s, s.sockets[i].id, os)
             && HasSource(add.sockets, Source(s.sockets[i]))
  }

  // ---------------------------------------------------------------- the manager

  /** The first service the new one is equal to. */
  function MatchIndex(ss: seq<Svc>, add: Svc): (r: int)
    ensures -1 <= r < |ss|
    ensures r >= 0 ==> Matches(add, ss[r])
    ensures forall i :: 0 <= i < (if r < 0 then |ss| else r) ==> !(Matches(add, ss[i]))
  {
    First(ss, (s: Svc) => Matches(add, s))
  }

  /** The first service the new one is a missing part of. */
  function NeedIndex(ss: seq<Svc>, add: Svc, os: Os): (r: int)
    ensures -1 <= r < |ss|
    ensures r >= 0 ==> NeedSocketFrom(ss[r], add, os)
    ensures forall i :: 0 <= i < (if r < 0 then |ss| else r) ==> !(NeedSocketFrom(ss[i], add, os))
  {
    First(ss, (s: Svc) => NeedSocketFrom(s, add, os))
  }

  function Rename(s: Svc, n: Names): Svc {
    s.(name := n.name, kind := n.kind, uniq := n.uniq, host := n.host)
  }

  /** The new service goes to the first one it equals, else to the first one it is a part of,
      else it becomes a service of its own. */
  function Take(ss: seq<Svc>, add: Svc, os: Os): seq<Svc> {
    var i, j := MatchIndex(ss, add), NeedIndex(ss, add, os);
    if i >= 0 then ss[i := UpdateFrom(ss[i], add, os)]
    else if j >= 0 then ss[j := UpdateFrom(ss[j], add, os)]
    else ss + [add]
  }

  function AddService(ss: seq<Svc>, serv: Svc, env: Env): seq<Svc> {
    Take(ss, Rename(serv, env.enhance(serv)), env.os)
  }

  function GetService(ss: seq<Svc>, pid: nat): (r: int)
    ensures -1 <= r < |ss|
    ensures r >= 0 ==> HavePid(ss[r], pid)
    ensures forall i :: 0 <= i < (if r < 0 then |ss| else r) ==> !HavePid(ss[i], pid)
  {
    First(ss, (s: Svc) => HavePid(s, pid))
  }

  function HandleSubProcess(ss: seq<Svc>, p: Proc, os: Os): seq<Svc> {
    var i := GetService(ss, os.Ppid(p.pid));
    if i < 0 then ss else ss[i := AddSub(ss[i], p)]
  }

  // ---------------------------------------------------------------- the socket detector

  predicate RuleMatches(p: Proc, rule: Rule) {
    if |rule.name| > 0 then BaseName(p.path) == rule.name[0]
    else |rule.path| > 0 && p.path == rule.path[0]
  }

  predicate Listed(p: Proc, rules: seq<Rule>) {
    exists i :: 0 <= i < |rules| && RuleMatches(p, rules[i])
  }

  function NewProc(pid: nat, os: Os): Proc {
    Proc(pid, os.Exe(pid), [])
  }

  function Dedup(ids: seq<nat>): (r: seq<nat>)
    ensures forall x :: x in r <==> x in ids
    ensures forall i, j :: 0 <= i < j < |r| ==> r[i] != r[j]
  {
    if ids == [] then []
    else
      var r := Dedup(ids[..|ids| - 1]);
      if ids[|ids| - 1] in r then r else r + [ids[|ids| - 1]]
  }

  /** `setSockets`: an unreadable directory leaves the known list. */
  function Refresh(p: Proc, os: Os): Proc {
    if p.pid in os.fds then p.(fds := Dedup(os.fds[p.pid])) else p
  }

  /** The first process with this pid. */
  function PidIndex(ps: seq<Proc>, pid: nat): (r: int)
    ensures -1 <= r < |ps|
    ensures r >= 0 ==> ps[r].pid == pid
    ensures forall i :: 0 <= i < (if r < 0 then |ps| else r) ==> !(ps[i].pid == pid)
  {
    First(ps, (m: Proc) => m.pid == pid)
  }

  /** Refreshes the process `getProcess` returns: the first main one, else the first sub one. */
  function RefreshIn(s: Svc, pid: nat, os: Os): Svc {
    var i := PidIndex(s.mains, pid);
    if i >= 0 then s.(mains := s.mains[i := Refresh(s.mains[i], os)])
    else
      var j := PidIndex(s.subs, pid);
      if j >= 0 then s.(subs := s.subs[j := Refresh(s.subs[j], os)]) else s
  }

  function Blank(host: string): Svc {
    Svc("", "unknown", "", host, [], [], [])
  }

  /** The service built around a process that holds socket `k`. */
  function Detected(p: Proc, k: Sock, env: Env): Svc {
    AddHeld(AddMain(SetSocket(Blank(env.host), k), p, env.os), env.table, env.os)
  }

  /** The first socket of the table among `fds`. */
  function HeldIndex(table: seq<Sock>, fds: seq<nat>): (r: int)
    ensures -1 <= r < |table|
    ensures r >= 0 ==> table[r].id in fds
    ensures forall i :: 0 <= i < (if r < 0 then |table| else r) ==> !(table[i].id in fds)
  {
    First(table, (k: Sock) => k.id in fds)
  }

  /** One numeric directory entry of `socketDetector::find`. */
  function Visit(ss: seq<Svc>, pid: nat, env: Env): seq<Svc> {
    var i := GetService(ss, pid);
    if i >= 0 then ss[i := AddHeld(RefreshIn(ss[i], pid, env.os), env.table, env.os)]
    else if GetService(ss, env.os.Ppid(pid)) >= 0 then HandleSubProcess(ss, NewProc(pid, env.os), env.os)
    else if Listed(NewProc(pid, env.os), env.rules) then ss
    else
      var p := Refresh(NewProc(pid, env.os), env.os);
      var h := HeldIndex(env.table, p.fds);
      if h < 0 then ss else AddService(ss, Detected(p, env.table[h], env), env)
  }

  function VisitAll(ss: seq<Svc>, pids: seq<nat>, env: Env): seq<Svc> {
    if pids == [] then ss
    else Visit(VisitAll(ss, pids[..|pids| - 1], env), pids[|pids| - 1], env)
  }

  /** `socketDetector::find` on an unchanging host. */
  function Pass(ss: seq<Svc>, pids: seq<nat>, env: Env): seq<Svc> {
    if |env.table| < 1 then ss else VisitAll(ss, pids, env)
  }

  /** A unit of the service manager with a main process the agent may not know yet. */
  function DetectUnit(ss: seq<Svc>, pid: nat, unit: string, env: Env): seq<Svc> {
    if GetService(ss, pid) >= 0 then ss
    else
      var p := NewProc(pid, env.os);
      if BaseName(p.path) == "" then ss
      else AddService(ss, AddMain(Blank(env.host).(uniq := unit), p, env.os), env)
  }

  // ---------------------------------------------------------------- runs

  /** What can happen to the list of services, each with its own answers from the host. */
  datatype Step =
    | Entry(pid: nat, env: Env)
    | Unit(pid: nat, unit: string, env: Env)
    | Prune(service: nat, os: Os)

  function Apply(ss: seq<Svc>, step: Step): seq<Svc> {
    match step
    case Entry(pid, env) => Visit(ss, pid, env)
    case Unit(pid, unit, env) => DetectUnit(ss, pid, unit, env)
    case Prune(i, os) => if i < |ss| then ss[i := ss[i].(subs := LiveOnly(ss[i].subs, os))] else ss
  }

  function Run(ss: seq<Svc>, steps: seq<Step>): seq<Svc> {
    if steps == [] then ss
    else Apply(Run(ss, steps[..|steps| - 1]), steps[|steps| - 1])
  }
}
