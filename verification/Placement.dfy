/** Where what a detector finds ends up: which service takes a newcomer over and what becomes of it,
    which list a process is filed in, and which processes are passed over. */
module Placement {
  import opened Sequences
  import opened Text
  import opened SocketCodec
  import opened ServiceModel
  import opened Ownership
  import opened OwnershipRuns
  import opened SocketMerge
  import opened Scan

  // ---------------------------------------------------------------- one service

  lemma {:induction false} KeptMains(mains: seq<Proc>, pid: nat, os: Os)
    ensures forall m :: m in Independent(mains, pid, os) <==> m in mains && os.Ppid(m.pid) != pid
    ensures multiset(Independent(mains, pid, os)) <= multiset(mains)
  {
    if mains != [] {
      var init, last := mains[..|mains| - 1], mains[|mains| - 1];
      KeptMains(init, pid, os);
      assert mains == init + [last];
    }
  }

  /** A child of a main process is filed as a sub-process and the main ones stay. Any other process
      becomes the last main one; of those before it exactly its own children leave, and these are
      sub-processes afterwards. A nameless service without a main process takes its name. */
  lemma AddMainPlaces(s: Svc, p: Proc, os: Os)
    ensures var t := AddMain(s, p, os);
      && t == s.(name := t.name, mains := t.mains, subs := t.subs)
      && t.name == (if s.mains == [] && s.name == "" then BaseName(p.path) else s.name)
      && if p.pid != 0 && HasPid(s.mains, os.Ppid(p.pid)) then t.mains == s.mains && HasPid(t.subs, p.pid)
         else
           && t.mains != [] && t.mains[|t.mains| - 1] == p
           && (forall m :: m in t.mains[..|t.mains| - 1] <==> m in s.mains && (p.pid == 0 || os.Ppid(m.pid) != p.pid))
           && (forall m :: p.pid != 0 && m in s.mains && os.Ppid(m.pid) == p.pid ==> HasPid(t.subs, m.pid))
  {
    hide Independent, Adopt, BaseName, HasPid;
    KeptMains(s.mains, p.pid, os);
    AddSubKnows(s.subs, p, p.pid);
    var kept := if p.pid == 0 then s.mains else Independent(s.mains, p.pid, os);
    assert (kept + [p])[..|kept|] == kept;
    forall m | m in s.mains && os.Ppid(m.pid) == p.pid
      ensures HasPid(Adopt(s.subs, s.mains, p.pid, os), m.pid)
    {
      MemberHasPid(s.mains, m);
      AdoptKnows(s.subs, s.mains, p.pid, os, m.pid);
    }
  }

  lemma MemberHasPid(ps: seq<Proc>, m: Proc)
    requires m in ps
    ensures HasPid(ps, m.pid)
  {
  }

  /** `j` is the first main process that is dead and ran the program. */
  ghost predicate FirstDead(mains: seq<Proc>, path: string, os: Os, j: nat) {
    && j < |mains| && mains[j].pid !in os.alive && mains[j].path == path
    && forall i :: 0 <= i < j ==> mains[i].pid in os.alive || mains[i].path != path
  }

  lemma {:induction false} EraseCounts<T>(xs: seq<T>, i: nat)
    requires i < |xs|
    ensures multiset(Erase(xs, i)) == multiset(xs) - multiset{xs[i]}
  {
    SplitAround(xs, i);
    assert xs == xs[..i] + [xs[i]] + xs[i + 1..];
  }

  lemma AddMainCounts(s: Svc, p: Proc, os: Os)
    ensures multiset(AddMain(s, p, os).mains) <= multiset(s.mains) + multiset{p}
  {
    hide Independent, Adopt, BaseName, HasPid;
    KeptMains(s.mains, p.pid, os);
  }

  /** A process takes the place of the first dead one that ran the same program. */
  lemma UpdateMainReplaces(s: Svc, p: Proc, os: Os, j: nat)
    requires FirstDead(s.mains, p.path, os, j)
    ensures multiset(UpdateMain(s, p, os).mains) <= multiset(s.mains) - multiset{s.mains[j]} + multiset{p}
  {
    hide AddMain, Erase;
    var i := DeadIndex(s.mains, p.path, os);
    assert i == j;
    EraseCounts(s.mains, j);
    AddMainCounts(EraseDead(s, p.path, os), p, os);
  }

  /** Without a dead one nobody is replaced. */
  lemma UpdateMainAdds(s: Svc, p: Proc, os: Os)
    requires forall m :: m in s.mains ==> m.pid in os.alive || m.path != p.path
    ensures UpdateMain(s, p, os) == AddMain(s, p, os)
  {
    hide AddMain;
  }

  /** The first socket gives a service without a key its key, a later one changes none. */
  lemma FirstSocketKey(s: Svc, k: Sock)
    ensures SetSocket(s, k).uniq == if s.sockets == [] && s.uniq == "" then UniqName(k.endpoint) else s.uniq
  {
    hide HasSource, Source, UniqName;
  }

  /** Exactly the sockets of the table that a live main process holds are added. */
  lemma {:induction false} HeldExactly(s: Svc, table: seq<Sock>, os: Os, source: string)
    ensures HasSource(AddHeld(s, table, os).sockets, source) <==>
      HasSource(s.sockets, source) || exists k :: k in table && HaveSocket(s, k.id, os) && Source(k) == source
  {
    hide Source, HasSource, SetSocket, HaveSocket;
    if table != [] {
      var init, last := table[..|table| - 1], table[|table| - 1];
      assert table == init + [last];
      HeldExactly(s, init, os, source);
      AddHeldFrame(s, init, os);
      SameHolders(s, AddHeld(s, init, os), last.id, os);
      SetSocketHas(AddHeld(s, init, os), last, source);
    }
  }

  lemma SameHolders(s: Svc, t: Svc, id: nat, os: Os)
    requires s.mains == t.mains
    ensures HaveSocket(s, id, os) <==> HaveSocket(t, id, os)
  {
  }

  // ---------------------------------------------------------------- newcomers

  /** The service that must take a newcomer over: the first it equals, or if it equals none the first
      that lacks a socket it has. */
  ghost predicate Recipient(ss: seq<Svc>, add: Svc, os: Os, i: nat) {
    && i < |ss|
    && if exists j :: 0 <= j < |ss| && Matches(add, ss[j])
       then Matches(add, ss[i]) && forall j :: 0 <= j < i ==> !Matches(add, ss[j])
       else NeedSocketFrom(ss[i], add, os) && forall j :: 0 <= j < i ==> !NeedSocketFrom(ss[j], add, os)
  }

  ghost predicate Wanted(ss: seq<Svc>, add: Svc, os: Os) {
    exists j :: 0 <= j < |ss| && (Matches(add, ss[j]) || NeedSocketFrom(ss[j], add, os))
  }

  lemma AddServicePlaces(ss: seq<Svc>, serv: Svc, env: Env, i: nat)
    requires var add := Rename(serv, env.enhance(serv)); Recipient(ss, add, env.os, i)
    ensures var add := Rename(serv, env.enhance(serv));
      i < |ss| && AddService(ss, serv, env) == ss[i := UpdateFrom(ss[i], add, env.os)]
  {
    hide Matches, NeedSocketFrom, UpdateFrom, Rename;
    var add := Rename(serv, env.enhance(serv));
    var m, n := MatchIndex(ss, add), NeedIndex(ss, add, env.os);
    if m >= 0 {
      assert Matches(add, ss[m]);
      assert m == i;
    } else {
      assert n == i;
    }
  }

  /** A newcomer that some service equals, or failing that lacks a socket from, makes no service of
      its own. The first such service takes it over and every other one is unchanged: that one knows
      every live main process of the newcomer besides its own live ones, and nobody else, and its
      sources are its old ones overridden by the newcomer's. */
  lemma NewcomerIsTakenOver(ss: seq<Svc>, serv: Svc, env: Env, i: nat)
    requires var add := Rename(serv, env.enhance(serv)); Recipient(ss, add, env.os, i)
    requires Distinct(ss[i].sockets)
    ensures var add, tt := Rename(serv, env.enhance(serv)), AddService(ss, serv, env);
      && |tt| == |ss| && (forall j :: 0 <= j < |ss| && j != i ==> tt[j] == ss[j])
      && (forall x :: x in env.os.alive && (HasPid(add.mains, x) || HavePid(ss[i], x)) ==> HavePid(tt[i], x))
      && (forall x: nat :: HavePid(tt[i], x) ==> HasPid(add.mains, x) || HavePid(ss[i], x))
      && SourceMap(tt[i].sockets) == SourceMap(ss[i].sockets) + SourceMap(add.sockets)
      && Distinct(tt[i].sockets)
  {
    hide AddService, UpdateFrom, Recipient, Rename, HavePid, HasPid, SourceMap, Distinct;
    var add := Rename(serv, env.enhance(serv));
    AddServicePlaces(ss, serv, env, i);
    MergeOverrides(ss[i], add, env.os);
    forall x: nat
      ensures x in env.os.alive && (HasPid(add.mains, x) || HavePid(ss[i], x)) ==> HavePid(UpdateFrom(ss[i], add, env.os), x)
      ensures HavePid(UpdateFrom(ss[i], add, env.os), x) ==> HasPid(add.mains, x) || HavePid(ss[i], x)
    {
      UpdateFromKnows(ss[i], add, env.os, x);
    }
  }

  /** A wanted newcomer has a recipient, and only one. */
  lemma WantedHasRecipient(ss: seq<Svc>, add: Svc, os: Os)
    ensures Wanted(ss, add, os) <==> exists i :: Recipient(ss, add, os, i)
    ensures forall i, j :: Recipient(ss, add, os, i) && Recipient(ss, add, os, j) ==> i == j
  {
    hide Matches, NeedSocketFrom;
    var m, n := MatchIndex(ss, add), NeedIndex(ss, add, os);
    if m >= 0 {
      assert Recipient(ss, add, os, m);
    } else if n >= 0 {
      assert Recipient(ss, add, os, n);
    }
  }

  /** A newcomer that nobody wants becomes the last service of the list. */
  lemma StrangerIsAppended(ss: seq<Svc>, serv: Svc, env: Env)
    requires !Wanted(ss, Rename(serv, env.enhance(serv)), env.os)
    ensures AddService(ss, serv, env) == ss + [Rename(serv, env.enhance(serv))]
  {
    hide Matches, NeedSocketFrom, Rename;
    var add := Rename(serv, env.enhance(serv));
    var m, n := MatchIndex(ss, add), NeedIndex(ss, add, env.os);
    assert m < 0 && n < 0;
  }

  /** The new main process of a service that is taken over replaces the first dead one there that ran
      the same program. */
  lemma NewcomerReplacesDead(ss: seq<Svc>, serv: Svc, env: Env, i: nat, p: Proc, j: nat)
    requires var add := Rename(serv, env.enhance(serv)); Recipient(ss, add, env.os, i)
    requires serv.mains == [p] && FirstDead(ss[i].mains, p.path, env.os, j)
    ensures var mains := AddService(ss, serv, env)[i].mains;
      multiset(mains) <= multiset(ss[i].mains) - multiset{ss[i].mains[j]} + multiset{p}
  {
    hide AddService, Recipient, UpdateMain, MergeSockets, FirstDead;
    var add := Rename(serv, env.enhance(serv));
    AddServicePlaces(ss, serv, env, i);
    assert add.mains[..0] == [] && add.mains[0] == p;
    assert MergeMains(ss[i], [], env.os) == ss[i];
    assert MergeMains(ss[i], add.mains, env.os) == UpdateMain(ss[i], p, env.os);
    SocketsFrame(UpdateMain(ss[i], p, env.os), add.sockets);
    UpdateMainReplaces(ss[i], p, env.os, j);
  }

  // ---------------------------------------------------------------- who is passed over

  /** A live process is known after its visit exactly when it was, or its parent was, or it is neither
      black-listed nor without a selected socket. */
  lemma VisitKnowsExactly(ss: seq<Svc>, pid: nat, env: Env)
    requires pid in env.os.alive
    ensures Known(Visit(ss, pid, env), pid) <==> Known(ss, pid) || Known(ss, env.os.Ppid(pid)) || !Idle(pid, env)
  {
    hide Visit, Known, Idle;
    VisitFiles(ss, pid, env);
    if !Known(ss, pid) && !Known(ss, env.os.Ppid(pid)) && Idle(pid, env) {
      IdleIsPassedOver(ss, pid, env);
    }
  }

  lemma IdleIsPassedOver(ss: seq<Svc>, pid: nat, env: Env)
    requires !Known(ss, pid) && !Known(ss, env.os.Ppid(pid)) && Idle(pid, env)
    ensures Visit(ss, pid, env) == ss
  {
    hide HavePid, AddService, Detected, AddHeld, RefreshIn, HandleSubProcess, Refresh, Listed;
  }

  /** An unknown child goes to the first service that knows its parent, as its last sub-process;
      nothing else changes. */
  lemma ChildIsFiled(ss: seq<Svc>, pid: nat, env: Env) returns (i: nat)
    requires !Known(ss, pid) && Known(ss, env.os.Ppid(pid))
    ensures i < |ss| && HavePid(ss[i], env.os.Ppid(pid))
    ensures forall j :: 0 <= j < i ==> !HavePid(ss[j], env.os.Ppid(pid))
    ensures var tt := Visit(ss, pid, env);
      && |tt| == |ss| && (forall j :: 0 <= j < |ss| && j != i ==> tt[j] == ss[j])
      && tt[i] == ss[i].(subs := ss[i].subs + [Proc(pid, env.os.Exe(pid), [])])
  {
    hide AddService, Detected, AddHeld, RefreshIn, Refresh, Listed;
    i := GetService(ss, env.os.Ppid(pid));
    assert !HavePid(ss[i], pid);
  }

  /** A unit's live process is known afterwards exactly when it was or its program has a name. */
  lemma UnitKnowsExactly(ss: seq<Svc>, pid: nat, unit: string, env: Env)
    requires pid in env.os.alive
    ensures Known(DetectUnit(ss, pid, unit, env), pid) <==> Known(ss, pid) || BaseName(env.os.Exe(pid)) != ""
  {
    hide AddService, AddMain, BaseName;
    var p, blank := NewProc(pid, env.os), Blank(env.host).(uniq := unit);
    var serv := AddMain(blank, p, env.os);
    FirstMain(blank, p, env.os);
    assert serv.mains[0].pid == pid;
    AddServiceKnows(ss, serv, env, pid);
    if GetService(ss, pid) >= 0 {
      assert HavePid(ss[GetService(ss, pid)], pid);
    }
  }

  // ---------------------------------------------------------------- what a detector makes

  /** A service made of the process `p`: named after its program, keyed by the first socket of the
      table it holds, the `h`-th, and with exactly the sockets of the table that it holds. */
  ghost predicate MadeOf(serv: Svc, p: Proc, h: nat, env: Env) {
    && h < |env.table| && env.table[h].id in p.fds && (forall i :: 0 <= i < h ==> env.table[i].id !in p.fds)
    && serv.name == BaseName(p.path) && serv.kind == "unknown" && serv.host == env.host
    && serv.uniq == UniqName(env.table[h].endpoint)
    && serv.mains == [p] && serv.subs == []
    && forall source :: HasSource(serv.sockets, source) <==> exists k :: k in env.table && k.id in p.fds && Source(k) == source
  }

  /** A process that is neither known nor a child nor passed over makes such a service, which goes where
      newcomers go. */
  lemma VisitCreates(ss: seq<Svc>, pid: nat, env: Env) returns (serv: Svc, h: nat)
    requires pid in env.os.alive && !Known(ss, pid) && !Known(ss, env.os.Ppid(pid)) && !Idle(pid, env)
    ensures Visit(ss, pid, env) == AddService(ss, serv, env)
    ensures MadeOf(serv, Refresh(NewProc(pid, env.os), env.os), h, env)
  {
    VisitMakes(ss, pid, env);
    hide AddService, Detected, Visit, Refresh, MadeOf, HavePid, Idle;
    var p := Refresh(NewProc(pid, env.os), env.os);
    h := HeldIndex(env.table, p.fds);
    serv := Detected(p, env.table[h], env);
    RefreshedPid(pid, env.os);
    DetectedMadeOf(p, h, env);
  }

  lemma DetectedMadeOf(p: Proc, h: nat, env: Env)
    requires p.pid in env.os.alive && HeldIndex(env.table, p.fds) == h
    ensures h < |env.table| && MadeOf(Detected(p, env.table[h], env), p, h, env)
  {
    hide Detected, BaseName, UniqName, Source, HasSource;
    DetectedIs(p, env.table[h], env);
  }

  lemma RefreshedPid(pid: nat, os: Os)
    ensures Refresh(NewProc(pid, os), os).pid == pid
  {
  }

  lemma VisitMakes(ss: seq<Svc>, pid: nat, env: Env)
    requires !Known(ss, pid) && !Known(ss, env.os.Ppid(pid)) && !Idle(pid, env)
    ensures var p := Refresh(NewProc(pid, env.os), env.os); var h := HeldIndex(env.table, p.fds);
      h >= 0 && Visit(ss, pid, env) == AddService(ss, Detected(p, env.table[h], env), env)
  {
    hide AddService, HavePid, RefreshIn, AddHeld, Refresh, Listed, Detected;
  }

  lemma {:induction false} AddHeldKeeps(s: Svc, table: seq<Sock>, os: Os)
    requires s.sockets != []
    ensures var t := AddHeld(s, table, os); t == s.(sockets := t.sockets) && t.sockets != []
  {
    hide Source, HasSource, HaveSocket, UniqName;
    if table != [] {
      AddHeldKeeps(s, table[..|table| - 1], os);
    }
  }

  lemma DetectedIs(p: Proc, k: Sock, env: Env)
    requires p.pid in env.os.alive && k in env.table && k.id in p.fds
    ensures var serv := Detected(p, k, env);
      && serv.name == BaseName(p.path) && serv.kind == "unknown" && serv.host == env.host && serv.uniq == UniqName(k.endpoint)
      && serv.mains == [p] && serv.subs == []
      && forall source :: HasSource(serv.sockets, source) <==> exists l :: l in env.table && l.id in p.fds && Source(l) == source
  {
    hide AddHeld, BaseName, UniqName, Source, HasSource, AddMain, HaveSocket;
    var keyed := SetSocket(Blank(env.host), k);
    var s := AddMain(keyed, p, env.os);
    FirstSocket(Blank(env.host), k);
    FirstMain(keyed, p, env.os);
    AddMainPlaces(keyed, p, env.os);
    AddHeldKeeps(s, env.table, env.os);
    forall source
      ensures HasSource(AddHeld(s, env.table, env.os).sockets, source) <==>
        exists l :: l in env.table && l.id in p.fds && Source(l) == source
    {
      HeldExactly(s, env.table, env.os, source);
      OnlyMain(s, p, env.os);
      OnlySource(k, source);
    }
  }

  lemma FirstSocket(s: Svc, k: Sock)
    requires s.sockets == [] && s.uniq == ""
    ensures SetSocket(s, k) == s.(sockets := [k], uniq := UniqName(k.endpoint))
  {
    hide Source, UniqName;
    assert [] + [k] == [k];
  }

  lemma OnlyMain(s: Svc, p: Proc, os: Os)
    requires s.mains == [p] && p.pid in os.alive
    ensures forall id :: HaveSocket(s, id, os) <==> id in p.fds
  {
    forall id
      ensures HaveSocket(s, id, os) <==> id in p.fds
    {
      assert s.mains[0] == p;
    }
  }

  lemma OnlySource(k: Sock, source: string)
    ensures HasSource([k], source) <==> Source(k) == source
  {
    hide Source;
    assert [k][0] == k;
  }

  /** The service that is made of an unknown unit: named after its program, keyed by the unit. */
  lemma UnitCreates(ss: seq<Svc>, pid: nat, unit: string, env: Env)
    requires !Known(ss, pid) && BaseName(env.os.Exe(pid)) != ""
    ensures DetectUnit(ss, pid, unit, env) == AddService(ss,
      Svc(BaseName(env.os.Exe(pid)), "unknown", unit, env.host, [], [Proc(pid, env.os.Exe(pid), [])], []), env)
  {
    hide AddService, BaseName, HavePid, AddMain;
    var p, blank := NewProc(pid, env.os), Blank(env.host).(uniq := unit);
    FirstMain(blank, p, env.os);
    AddMainPlaces(blank, p, env.os);
  }

  // ---------------------------------------------------------------- comparing services

  /** A newcomer equals a service of the same name and type that has all of its sources. */
  lemma MatchesExactly(add: Svc, s: Svc)
    ensures Matches(add, s) <==>
      add.name == s.name && add.kind == s.kind && forall source :: HasSource(add.sockets, source) ==> HasSource(s.sockets, source)
  {
    hide Source;
    if Matches(add, s) {
      forall source | HasSource(add.sockets, source)
        ensures HasSource(s.sockets, source)
      {
        var i :| 0 <= i < |add.sockets| && Source(add.sockets[i]) == source;
        assert HasSource(s.sockets, Source(add.sockets[i]));
      }
    }
  }

  ghost predicate Unheld(s: Svc, k: Sock, os: Os) {
    forall m :: m in s.mains && m.pid in os.alive ==> k.id !in m.fds
  }

  /** A service lacks a socket when it lists one that no live main process of it holds, and the
      newcomer lists one with the same source. */
  lemma NeedsExactly(s: Svc, add: Svc, os: Os)
    ensures NeedSocketFrom(s, add, os) <==> exists k :: k in s.sockets && Unheld(s, k, os) && HasSource(add.sockets, Source(k))
  {
    hide Source, HasSource;
    forall k
      ensures Unheld(s, k, os) <==> !HaveSocket(s, k.id, os)
    {
    }
    if NeedSocketFrom(s, add, os) {
      var i :| 0 <= i < |s.sockets| && !HaveSocket(s, s.sockets[i].id, os) && HasSource(add.sockets, Source(s.sockets[i]));
      assert s.sockets[i] in s.sockets;
    }
    if k :| k in s.sockets && Unheld(s, k, os) && HasSource(add.sockets, Source(k)) {
      var i :| 0 <= i < |s.sockets| && s.sockets[i] == k;
    }
  }

  // ---------------------------------------------------------------- names and rules

  /** `n` is what follows the last slash of `path`, or all of it. */
  ghost predicate IsBase(path: string, n: string) {
    '/' !in n && (path == n || exists k :: 0 <= k < |path| && path[k] == '/' && path[k + 1..] == n)
  }

  lemma BaseNameIs(path: string, n: string)
    ensures BaseName(path) == n <==> IsBase(path, n)
  {
    hide RFind;
    var r := RFind(path, '/');
    assert path[r + 1..] == BaseName(path);
    if r < 0 {
      assert path[0..] == path;
    }
    forall i | 0 <= i < |BaseName(path)|
      ensures BaseName(path)[i] != '/'
    {
      assert BaseName(path)[i] == path[r + 1 + i];
    }
    if IsBase(path, n) && path != n {
      var k :| 0 <= k < |path| && path[k] == '/' && path[k + 1..] == n;
      RFindAt(path, '/', k);
    } else if path == n && '/' !in n {
      assert r < 0;
    }
  }

  /** A rule gives a program's name or, without one, its path. */
  ghost predicate Gives(rule: Rule, path: string) {
    if rule.name != [] then IsBase(path, rule.name[0]) else rule.path != [] && path == rule.path[0]
  }

  /** A process is black-listed exactly when some rule gives its program. */
  lemma ListedExactly(p: Proc, rules: seq<Rule>)
    ensures Listed(p, rules) <==> exists i :: 0 <= i < |rules| && Gives(rules[i], p.path)
  {
    hide BaseName, IsBase;
    forall i | 0 <= i < |rules|
      ensures RuleMatches(p, rules[i]) <==> Gives(rules[i], p.path)
    {
      if rules[i].name != [] {
        BaseNameIs(p.path, rules[i].name[0]);
      }
    }
  }

  /** The mark of a replaced file is taken off the program's path, and nothing else is. */
  lemma ExeOfReplaced(os: Os, pid: nat, path: string)
    requires pid in os.exes
    ensures os.exes[pid] == path + " (deleted)" ==> os.Exe(pid) == path
    ensures (|os.exes[pid]| < 10 || os.exes[pid][|os.exes[pid]| - 9..] != "(deleted)") ==> os.Exe(pid) == os.exes[pid]
  {
    var link := path + " (deleted)";
    assert link[|link| - 9..] == "(deleted)" && link[..|link| - 10] == path;
  }
}
