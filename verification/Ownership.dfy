/** Every process the agent knows is filed once: under one service, as main or as sub-process.
    Processes read from the configuration all carry pid 0 and are exempt. */
module Ownership {
  import opened Sequences
  import opened ServiceModel

  // ---------------------------------------------------------------- the invariant

  ghost predicate NoDup(ps: seq<Proc>) {
    forall a, b :: 0 <= a < b < |ps| && ps[a].pid == ps[b].pid ==> ps[a].pid == 0
  }

  ghost predicate Unique(s: Svc) {
    && NoDup(s.mains)
    && NoDup(s.subs)
    && forall x: nat :: x != 0 ==> !(HasPid(s.mains, x) && HasPid(s.subs, x))
  }

  ghost predicate Owned(ss: seq<Svc>) {
    && (forall i :: 0 <= i < |ss| ==> Unique(ss[i]))
    && (forall i, j, x: nat :: 0 <= i < j < |ss| && x != 0 ==> !(HavePid(ss[i], x) && HavePid(ss[j], x)))
  }

  ghost predicate Known(ss: seq<Svc>, x: nat) {
    exists i :: 0 <= i < |ss| && HavePid(ss[i], x)
  }

  // ---------------------------------------------------------------- lists of processes

  lemma HasPidSnoc(ps: seq<Proc>, p: Proc, x: nat)
    ensures HasPid(ps + [p], x) <==> HasPid(ps, x) || p.pid == x
  {
    var qs := ps + [p];
    if HasPid(ps, x) {
      var i :| 0 <= i < |ps| && ps[i].pid == x;
      assert qs[i].pid == x;
    }
    assert qs[|ps|] == p;
    if HasPid(qs, x) && p.pid != x {
      var i :| 0 <= i < |qs| && qs[i].pid == x;
      assert ps[i] == qs[i];
    }
  }

  lemma HasPidLast(ps: seq<Proc>, x: nat)
    requires ps != []
    ensures HasPid(ps, x) <==> HasPid(ps[..|ps| - 1], x) || ps[|ps| - 1].pid == x
  {
    assert ps == ps[..|ps| - 1] + [ps[|ps| - 1]];
    HasPidSnoc(ps[..|ps| - 1], ps[|ps| - 1], x);
  }

  lemma NoDupSnoc(ps: seq<Proc>, p: Proc)
    requires NoDup(ps) && (p.pid == 0 || !HasPid(ps, p.pid))
    ensures NoDup(ps + [p])
  {
  }

  lemma HasPidErase(ps: seq<Proc>, i: nat, x: nat)
    requires i < |ps|
    ensures HasPid(Erase(ps, i), x) ==> HasPid(ps, x)
    ensures HasPid(ps, x) && ps[i].pid != x ==> HasPid(Erase(ps, i), x)
  {
    var qs := Erase(ps, i);
    if HasPid(qs, x) {
      var j :| 0 <= j < |qs| && qs[j].pid == x;
      assert qs[j] == ps[if j < i then j else j + 1];
    }
    if HasPid(ps, x) && ps[i].pid != x {
      var j :| 0 <= j < |ps| && ps[j].pid == x;
      assert qs[if j < i then j else j - 1] == ps[j];
    }
  }

  lemma NoDupErase(ps: seq<Proc>, i: nat)
    requires i < |ps| && NoDup(ps)
    ensures NoDup(Erase(ps, i))
  {
    var qs := Erase(ps, i);
    forall a, b | 0 <= a < b < |qs| && qs[a].pid == qs[b].pid
      ensures qs[a].pid == 0
    {
      assert qs[a] == ps[if a < i then a else a + 1];
      assert qs[b] == ps[if b < i then b else b + 1];
    }
  }

  // ---------------------------------------------------------------- adding to one service

  lemma AddSubKnows(subs: seq<Proc>, p: Proc, x: nat)
    ensures HasPid(AddSubTo(subs, p), x) <==> HasPid(subs, x) || x == p.pid
  {
    HasPidSnoc(subs, p, x);
  }

  lemma {:induction false} IndependentKnows(mains: seq<Proc>, pid: nat, os: Os, x: nat)
    ensures HasPid(Independent(mains, pid, os), x) <==> HasPid(mains, x) && os.Ppid(x) != pid
  {
    if mains != [] {
      var init, last := mains[..|mains| - 1], mains[|mains| - 1];
      IndependentKnows(init, pid, os, x);
      HasPidLast(mains, x);
      HasPidSnoc(Independent(init, pid, os), last, x);
      assert Independent(init, pid, os) + [] == Independent(init, pid, os);
    }
  }

  lemma {:induction false} IndependentNoDup(mains: seq<Proc>, pid: nat, os: Os)
    requires NoDup(mains)
    ensures NoDup(Independent(mains, pid, os))
  {
    if mains != [] {
      var init, last := mains[..|mains| - 1], mains[|mains| - 1];
      IndependentNoDup(init, pid, os);
      IndependentKnows(init, pid, os, last.pid);
      NoDupSnoc(Independent(init, pid, os), last);
      assert Independent(init, pid, os) + [] == Independent(init, pid, os);
    }
  }

  lemma {:induction false} AdoptKnows(subs: seq<Proc>, mains: seq<Proc>, pid: nat, os: Os, x: nat)
    ensures HasPid(Adopt(subs, mains, pid, os), x) <==> HasPid(subs, x) || (HasPid(mains, x) && os.Ppid(x) == pid)
  {
    if mains != [] {
      var init, last := mains[..|mains| - 1], mains[|mains| - 1];
      AdoptKnows(subs, init, pid, os, x);
      HasPidLast(mains, x);
      AddSubKnows(Adopt(subs, init, pid, os), last, x);
    }
  }

  lemma {:induction false} AdoptNoDup(subs: seq<Proc>, mains: seq<Proc>, pid: nat, os: Os)
    requires NoDup(subs)
    ensures NoDup(Adopt(subs, mains, pid, os))
  {
    if mains != [] {
      AdoptNoDup(subs, mains[..|mains| - 1], pid, os);
    }
  }

  /** Adding a main process loses nobody, whichever list processes end up in. */
  lemma AddMainKnows(s: Svc, p: Proc, os: Os, x: nat)
    ensures HavePid(AddMain(s, p, os), x) <==> HavePid(s, x) || x == p.pid
  {
    AddSubKnows(s.subs, p, x);
    AdoptKnows(s.subs, s.mains, p.pid, os, x);
    IndependentKnows(s.mains, p.pid, os, x);
    HasPidSnoc(Independent(s.mains, p.pid, os), p, x);
    HasPidSnoc(s.mains, p, x);
  }

  lemma AddMainUnique(s: Svc, p: Proc, os: Os)
    requires Unique(s) && (p.pid == 0 || !HavePid(s, p.pid))
    ensures Unique(AddMain(s, p, os))
  {
    var named := if |s.mains| == 0 && s.name == "" then s.(name := BaseName(p.path)) else s;
    if p.pid == 0 {
      NoDupSnoc(s.mains, p);
      forall x: nat ensures HasPid(s.mains + [p], x) <==> HasPid(s.mains, x) || p.pid == x { HasPidSnoc(s.mains, p, x); }
    } else if HasPid(named.mains, os.Ppid(p.pid)) {
      NoDupSnoc(s.subs, p);
      forall x: nat ensures HasPid(AddSubTo(s.subs, p), x) <==> HasPid(s.subs, x) || x == p.pid { AddSubKnows(s.subs, p, x); }
    } else {
      AddMainTakesOver(named, p, os);
    }
  }

  lemma AddMainTakesOver(s: Svc, p: Proc, os: Os)
    requires Unique(s) && !HavePid(s, p.pid)
    ensures Unique(s.(mains := Independent(s.mains, p.pid, os) + [p], subs := Adopt(s.subs, s.mains, p.pid, os)))
  {
    var kept, subs := Independent(s.mains, p.pid, os), Adopt(s.subs, s.mains, p.pid, os);
    AdoptNoDup(s.subs, s.mains, p.pid, os);
    IndependentNoDup(s.mains, p.pid, os);
    IndependentKnows(s.mains, p.pid, os, p.pid);
    NoDupSnoc(kept, p);
    forall x: nat | x != 0
      ensures !(HasPid(kept + [p], x) && HasPid(subs, x))
    {
      HasPidSnoc(kept, p, x);
      IndependentKnows(s.mains, p.pid, os, x);
      AdoptKnows(s.subs, s.mains, p.pid, os, x);
    }
  }

  // ---------------------------------------------------------------- replacing and merging

  /** Only a dead process can be forgotten. */
  lemma EraseDeadKnows(s: Svc, path: string, os: Os, x: nat)
    ensures HasPid(EraseDead(s, path, os).mains, x) ==> HasPid(s.mains, x)
    ensures x in os.alive && HasPid(s.mains, x) ==> HasPid(EraseDead(s, path, os).mains, x)
  {
    var i := DeadIndex(s.mains, path, os);
    if i >= 0 {
      HasPidErase(s.mains, i, x);
    }
  }

  lemma EraseDeadUnique(s: Svc, path: string, os: Os)
    requires Unique(s)
    ensures Unique(EraseDead(s, path, os))
  {
    var i := DeadIndex(s.mains, path, os);
    if i >= 0 {
      NoDupErase(s.mains, i);
      forall x: nat | x != 0
        ensures !(HasPid(EraseDead(s, path, os).mains, x) && HasPid(s.subs, x))
      {
        EraseDeadKnows(s, path, os, x);
      }
    }
  }

  lemma UpdateMainKnows(s: Svc, p: Proc, os: Os, x: nat)
    ensures HavePid(UpdateMain(s, p, os), x) ==> HavePid(s, x) || x == p.pid
    ensures (x in os.alive && HavePid(s, x)) || x == p.pid ==> HavePid(UpdateMain(s, p, os), x)
  {
    EraseDeadKnows(s, p.path, os, x);
    AddMainKnows(EraseDead(s, p.path, os), p, os, x);
  }

  lemma UpdateMainUnique(s: Svc, p: Proc, os: Os)
    requires Unique(s) && (p.pid == 0 || !HavePid(s, p.pid))
    ensures Unique(UpdateMain(s, p, os))
  {
    EraseDeadUnique(s, p.path, os);
    EraseDeadKnows(s, p.path, os, p.pid);
    AddMainUnique(EraseDead(s, p.path, os), p, os);
  }

  lemma {:induction false} MergeMainsKnows(s: Svc, ps: seq<Proc>, os: Os, x: nat)
    ensures HavePid(MergeMains(s, ps, os), x) ==> HavePid(s, x) || HasPid(ps, x)
    ensures x in os.alive && (HavePid(s, x) || HasPid(ps, x)) ==> HavePid(MergeMains(s, ps, os), x)
  {
    if ps != [] {
      var init, last := ps[..|ps| - 1], ps[|ps| - 1];
      MergeMainsKnows(s, init, os, x);
      HasPidLast(ps, x);
      UpdateMainKnows(MergeMains(s, init, os), last, os, x);
    }
  }

  lemma {:induction false} MergeMainsUnique(s: Svc, ps: seq<Proc>, os: Os)
    requires Unique(s) && NoDup(ps)
    requires forall x: nat :: x != 0 ==> !(HavePid(s, x) && HasPid(ps, x))
    ensures Unique(MergeMains(s, ps, os))
  {
    if ps != [] {
      var init, last := ps[..|ps| - 1], ps[|ps| - 1];
      forall x: nat | x != 0
        ensures !(HavePid(s, x) && HasPid(init, x))
      {
        HasPidLast(ps, x);
      }
      MergeMainsUnique(s, init, os);
      HasPidLast(ps, last.pid);
      MergeMainsKnows(s, init, os, last.pid);
      UpdateMainUnique(MergeMains(s, init, os), last, os);
    }
  }

  lemma {:induction false} SocketsFrame(s: Svc, ks: seq<Sock>)
    ensures MergeSockets(s, ks).mains == s.mains && MergeSockets(s, ks).subs == s.subs
  {
    if ks != [] {
      SocketsFrame(s, ks[..|ks| - 1]);
    }
  }

  lemma {:induction false} AddHeldFrame(s: Svc, table: seq<Sock>, os: Os)
    ensures AddHeld(s, table, os).mains == s.mains && AddHeld(s, table, os).subs == s.subs
    ensures AddHeld(s, table, os).name == s.name && AddHeld(s, table, os).kind == s.kind
  {
    if table != [] {
      AddHeldFrame(s, table[..|table| - 1], os);
    }
  }

  // ---------------------------------------------------------------- the list of services

  /** Replacing one service by one that only gained pids nobody else has. */
  lemma ReplaceOwned(ss: seq<Svc>, i: nat, t: Svc)
    requires Owned(ss) && i < |ss| && Unique(t)
    requires forall x: nat :: x != 0 && HavePid(t, x) ==> HavePid(ss[i], x) || !Known(ss, x)
    ensures Owned(ss[i := t])
  {
    var tt := ss[i := t];
    forall a, b, x: nat | 0 <= a < b < |tt| && x != 0
      ensures !(HavePid(tt[a], x) && HavePid(tt[b], x))
    {
      assert a != i ==> tt[a] == ss[a];
      assert b != i ==> tt[b] == ss[b];
      if HavePid(tt[a], x) && HavePid(tt[b], x) {
        assert Known(ss, x);
      }
    }
  }

  lemma ReplaceKnown(ss: seq<Svc>, i: nat, t: Svc, x: nat)
    requires i < |ss|
    ensures Known(ss[i := t], x) ==> Known(ss, x) || HavePid(t, x)
    ensures Known(ss, x) && (HavePid(ss[i], x) ==> HavePid(t, x)) ==> Known(ss[i := t], x)
    ensures HavePid(t, x) ==> Known(ss[i := t], x)
  {
    var tt := ss[i := t];
    assert tt[i] == t;
    if Known(tt, x) && !HavePid(t, x) {
      var j :| 0 <= j < |tt| && HavePid(tt[j], x);
      assert ss[j] == tt[j];
    }
    if Known(ss, x) && (HavePid(ss[i], x) ==> HavePid(t, x)) {
      var j :| 0 <= j < |ss| && HavePid(ss[j], x);
      assert j != i ==> tt[j] == ss[j];
    }
  }

  lemma AppendKnown(ss: seq<Svc>, t: Svc, x: nat)
    ensures Known(ss + [t], x) <==> Known(ss, x) || HavePid(t, x)
  {
    var tt := ss + [t];
    assert tt[|ss|] == t;
    if Known(tt, x) && !HavePid(t, x) {
      var j :| 0 <= j < |tt| && HavePid(tt[j], x);
      assert ss[j] == tt[j];
    }
    if Known(ss, x) {
      var j :| 0 <= j < |ss| && HavePid(ss[j], x);
      assert tt[j] == ss[j];
    }
  }

  /** A service whose processes nobody has yet. */
  ghost predicate Newcomer(add: Svc, ss: seq<Svc>) {
    && Unique(add)
    && add.subs == []
    && forall x: nat :: x != 0 && HavePid(add, x) ==> !Known(ss, x)
  }

  lemma UpdateFromKnows(s: Svc, src: Svc, os: Os, x: nat)
    ensures HavePid(UpdateFrom(s, src, os), x) ==> HavePid(s, x) || HasPid(src.mains, x)
    ensures x in os.alive && (HavePid(s, x) || HasPid(src.mains, x)) ==> HavePid(UpdateFrom(s, src, os), x)
  {
    MergeMainsKnows(s, src.mains, os, x);
    SocketsFrame(MergeMains(s, src.mains, os), src.sockets);
  }

  lemma UpdateFromOwned(ss: seq<Svc>, i: nat, add: Svc, os: Os)
    requires Owned(ss) && i < |ss| && Newcomer(add, ss)
    ensures Owned(ss[i := UpdateFrom(ss[i], add, os)])
  {
    forall x: nat | x != 0
      ensures !(HavePid(ss[i], x) && HasPid(add.mains, x))
    {
      if HavePid(ss[i], x) {
        assert Known(ss, x);
      }
    }
    MergeMainsUnique(ss[i], add.mains, os);
    SocketsFrame(MergeMains(ss[i], add.mains, os), add.sockets);
    forall x: nat | x != 0 && HavePid(UpdateFrom(ss[i], add, os), x)
      ensures HavePid(ss[i], x) || !Known(ss, x)
    {
      UpdateFromKnows(ss[i], add, os, x);
    }
    ReplaceOwned(ss, i, UpdateFrom(ss[i], add, os));
  }

  /** Where `AddService` puts a newcomer, told once for all the proofs about it. */
  lemma AddServiceCases(ss: seq<Svc>, serv: Svc, env: Env)
    ensures var add, tt := Rename(serv, env.enhance(serv)), AddService(ss, serv, env);
      || tt == ss + [add]
      || exists i :: 0 <= i < |ss| && tt == ss[i := UpdateFrom(ss[i], add, env.os)]
  {
  }

  lemma AddServiceOwned(ss: seq<Svc>, serv: Svc, env: Env)
    requires Owned(ss) && Newcomer(serv, ss)
    ensures Owned(AddService(ss, serv, env))
  {
    hide AddService;
    var add := Rename(serv, env.enhance(serv));
    assert forall x: nat :: HavePid(add, x) <==> HavePid(serv, x);
    AddServiceCases(ss, serv, env);
    if AddService(ss, serv, env) == ss + [add] {
      AppendOwned(ss, add);
    } else {
      var i :| 0 <= i < |ss| && AddService(ss, serv, env) == ss[i := UpdateFrom(ss[i], add, env.os)];
      UpdateFromOwned(ss, i, add, env.os);
    }
  }

  lemma AppendOwned(ss: seq<Svc>, add: Svc)
    requires Owned(ss) && Newcomer(add, ss)
    ensures Owned(ss + [add])
  {
    var tt := ss + [add];
    forall a, b, x: nat | 0 <= a < b < |tt| && x != 0
      ensures !(HavePid(tt[a], x) && HavePid(tt[b], x))
    {
      assert tt[a] == ss[a];
      if b < |ss| {
        assert tt[b] == ss[b];
      } else if HavePid(tt[a], x) {
        assert Known(ss, x);
      }
    }
  }

  lemma AddServiceKnows(ss: seq<Svc>, serv: Svc, env: Env, x: nat)
    requires serv.subs == []
    ensures Known(AddService(ss, serv, env), x) ==> Known(ss, x) || HavePid(serv, x)
    ensures x in env.os.alive && (Known(ss, x) || HavePid(serv, x)) ==> Known(AddService(ss, serv, env), x)
  {
    hide AddService;
    var add := Rename(serv, env.enhance(serv));
    AddServiceCases(ss, serv, env);
    if AddService(ss, serv, env) == ss + [add] {
      AppendKnown(ss, add, x);
    } else {
      var i :| 0 <= i < |ss| && AddService(ss, serv, env) == ss[i := UpdateFrom(ss[i], add, env.os)];
      UpdateFromKnows(ss[i], add, env.os, x);
      ReplaceKnown(ss, i, UpdateFrom(ss[i], add, env.os), x);
      if HavePid(ss[i], x) {
        assert Known(ss, x);
      }
    }
  }
}
