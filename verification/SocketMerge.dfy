/** The sockets of a service behave as a map from source text to socket, and merging one service
    into another overrides that map. */
module SocketMerge {
  import opened Sequences
  import opened ServiceModel
  import opened Ownership
  import opened OwnershipRuns

  ghost predicate Distinct(ks: seq<Sock>) {
    forall a, b :: 0 <= a < b < |ks| ==> Source(ks[a]) != Source(ks[b])
  }

  /** The last socket listed under each source. */
  ghost function SourceMap(ks: seq<Sock>): map<string, Sock> {
    if ks == [] then map[]
    else SourceMap(ks[..|ks| - 1])[Source(ks[|ks| - 1]) := ks[|ks| - 1]]
  }

  // ---------------------------------------------------------------- lists of sockets

  lemma HasSourceSnoc(ks: seq<Sock>, k: Sock, source: string)
    ensures HasSource(ks + [k], source) <==> HasSource(ks, source) || Source(k) == source
  {
    hide Source;
    var qs := ks + [k];
    assert qs[|ks|] == k;
    if HasSource(ks, source) {
      var i :| 0 <= i < |ks| && Source(ks[i]) == source;
      assert qs[i] == ks[i];
    }
    if HasSource(qs, source) && Source(k) != source {
      var i :| 0 <= i < |qs| && Source(qs[i]) == source;
      assert ks[i] == qs[i];
    }
  }

  lemma HasSourceLast(ks: seq<Sock>, source: string)
    requires ks != []
    ensures HasSource(ks, source) <==> HasSource(ks[..|ks| - 1], source) || Source(ks[|ks| - 1]) == source
  {
    hide Source, HasSource;
    assert ks == ks[..|ks| - 1] + [ks[|ks| - 1]];
    HasSourceSnoc(ks[..|ks| - 1], ks[|ks| - 1], source);
  }

  lemma HasSourceErase(ks: seq<Sock>, i: nat, source: string)
    requires i < |ks|
    ensures HasSource(Erase(ks, i), source) ==> HasSource(ks, source)
    ensures HasSource(ks, source) && Source(ks[i]) != source ==> HasSource(Erase(ks, i), source)
  {
    hide Source;
    var qs := Erase(ks, i);
    if HasSource(qs, source) {
      var j :| 0 <= j < |qs| && Source(qs[j]) == source;
      assert qs[j] == ks[if j < i then j else j + 1];
    }
    if HasSource(ks, source) && Source(ks[i]) != source {
      var j :| 0 <= j < |ks| && Source(ks[j]) == source;
      assert qs[if j < i then j else j - 1] == ks[j];
    }
  }

  lemma DistinctErase(ks: seq<Sock>, i: nat)
    requires i < |ks| && Distinct(ks)
    ensures Distinct(Erase(ks, i)) && !HasSource(Erase(ks, i), Source(ks[i]))
  {
    hide Source;
    var qs := Erase(ks, i);
    assert forall j :: 0 <= j < |qs| ==> qs[j] == ks[if j < i then j else j + 1];
  }

  lemma DistinctSnoc(ks: seq<Sock>, k: Sock)
    requires Distinct(ks) && !HasSource(ks, Source(k))
    ensures Distinct(ks + [k])
  {
    hide Source;
  }

  lemma {:induction false} SourceMapHas(ks: seq<Sock>, source: string)
    ensures source in SourceMap(ks) <==> HasSource(ks, source)
  {
    hide Source;
    if ks != [] {
      SourceMapHas(ks[..|ks| - 1], source);
      HasSourceLast(ks, source);
    }
  }

  lemma SourceMapSnoc(ks: seq<Sock>, k: Sock)
    ensures SourceMap(ks + [k]) == SourceMap(ks)[Source(k) := k]
  {
    hide Source;
    assert (ks + [k])[..|ks|] == ks;
  }

  /** In a list without repeated sources the map finds every socket. */
  lemma {:induction false} SourceMapAt(ks: seq<Sock>, i: nat)
    requires Distinct(ks) && i < |ks|
    ensures Source(ks[i]) in SourceMap(ks) && SourceMap(ks)[Source(ks[i])] == ks[i]
  {
    hide Source;
    if i < |ks| - 1 {
      SourceMapAt(ks[..|ks| - 1], i);
    }
  }

  lemma SourceMapErase(ks: seq<Sock>, i: nat)
    requires Distinct(ks) && i < |ks|
    ensures SourceMap(Erase(ks, i)) == SourceMap(ks) - {Source(ks[i])}
  {
    hide Source, SourceMap, Erase, Distinct;
    forall source
      ensures source in SourceMap(Erase(ks, i)) <==> source in SourceMap(ks) && source != Source(ks[i])
      ensures source in SourceMap(Erase(ks, i)) ==> SourceMap(Erase(ks, i))[source] == SourceMap(ks)[source]
    {
      SourceMapEraseAt(ks, i, source);
    }
  }

  lemma SourceMapEraseAt(ks: seq<Sock>, i: nat, source: string)
    requires Distinct(ks) && i < |ks|
    ensures source in SourceMap(Erase(ks, i)) <==> source in SourceMap(ks) && source != Source(ks[i])
    ensures source in SourceMap(Erase(ks, i)) ==> SourceMap(Erase(ks, i))[source] == SourceMap(ks)[source]
  {
    hide Source, SourceMap, HasSource, Erase, Distinct;
    var qs := Erase(ks, i);
    DistinctErase(ks, i);
    SourceMapHas(ks, source);
    SourceMapHas(qs, source);
    HasSourceErase(ks, i, source);
    if HasSource(qs, source) {
      var j := SourceAt(qs, source);
      ErasedAt(ks, i, j);
      SourceMapAt(qs, j);
      SourceMapAt(ks, if j < i then j else j + 1);
    }
  }

  ghost function SourceAt(ks: seq<Sock>, source: string): (j: nat)
    requires HasSource(ks, source)
    ensures j < |ks| && Source(ks[j]) == source
  {
    var j :| 0 <= j < |ks| && Source(ks[j]) == source;
    j
  }

  lemma ErasedAt(ks: seq<Sock>, i: nat, j: nat)
    requires i < |ks| && j < |ks| - 1
    ensures Erase(ks, i)[j] == ks[if j < i then j else j + 1]
  {
  }

  // ---------------------------------------------------------------- operations on one service

  lemma SetSocketHas(s: Svc, k: Sock, source: string)
    ensures HasSource(SetSocket(s, k).sockets, source) <==> HasSource(s.sockets, source) || Source(k) == source
    ensures Distinct(s.sockets) ==> Distinct(SetSocket(s, k).sockets)
  {
    hide Source;
    HasSourceSnoc(s.sockets, k, source);
    if Distinct(s.sockets) && !HasSource(s.sockets, Source(k)) {
      DistinctSnoc(s.sockets, k);
    }
  }

  /** One round of the second loop of `updateFrom`. */
  lemma ReplaceSocket(s: Svc, k: Sock)
    requires Distinct(s.sockets)
    ensures var t := SetSocket(EraseSource(s, Source(k)), k);
      Distinct(t.sockets) && SourceMap(t.sockets) == SourceMap(s.sockets)[Source(k) := k]
  {
    hide Source, SourceMap;
    var i := SourceIndex(s.sockets, Source(k));
    var erased := EraseSource(s, Source(k));
    if i >= 0 {
      DistinctErase(s.sockets, i);
      SourceMapErase(s.sockets, i);
    } else {
      SourceMapHas(s.sockets, Source(k));
    }
    assert !HasSource(erased.sockets, Source(k));
    DistinctSnoc(erased.sockets, k);
    SourceMapSnoc(erased.sockets, k);
  }

  lemma {:induction false} MergeSocketsOverrides(s: Svc, ks: seq<Sock>)
    requires Distinct(s.sockets)
    ensures Distinct(MergeSockets(s, ks).sockets)
    ensures SourceMap(MergeSockets(s, ks).sockets) == SourceMap(s.sockets) + SourceMap(ks)
  {
    hide Source, SetSocket, EraseSource, Distinct;
    if ks != [] {
      var init, k := ks[..|ks| - 1], ks[|ks| - 1];
      MergeSocketsOverrides(s, init);
      ReplaceSocket(MergeSockets(s, init), k);
      OverrideThenSet(SourceMap(s.sockets), SourceMap(init), Source(k), k);
    }
  }

  lemma OverrideThenSet<K, V>(a: map<K, V>, b: map<K, V>, k: K, v: V)
    ensures (a + b)[k := v] == a + b[k := v]
  {
  }

  lemma {:induction false} MergeMainsFrame(s: Svc, ps: seq<Proc>, os: Os)
    ensures MergeMains(s, ps, os).sockets == s.sockets
    ensures MergeMains(s, ps, os).uniq == s.uniq && MergeMains(s, ps, os).kind == s.kind
  {
    if ps != [] {
      var t := MergeMains(s, ps[..|ps| - 1], os);
      var p := ps[|ps| - 1];
      MergeMainsFrame(s, ps[..|ps| - 1], os);
      AddMainFrame(EraseDead(t, p.path, os), p, os);
    }
  }

  lemma AddMainFrame(s: Svc, p: Proc, os: Os)
    ensures AddMain(s, p, os).sockets == s.sockets
    ensures AddMain(s, p, os).uniq == s.uniq && AddMain(s, p, os).kind == s.kind
  {
  }

  /** Merging is a right-biased override of the source-to-socket map, without repeated sources. */
  lemma MergeOverrides(s: Svc, src: Svc, os: Os)
    requires Distinct(s.sockets)
    ensures Distinct(UpdateFrom(s, src, os).sockets)
    ensures SourceMap(UpdateFrom(s, src, os).sockets) == SourceMap(s.sockets) + SourceMap(src.sockets)
  {
    hide Source, SourceMap;
    MergeMainsFrame(s, src.mains, os);
    MergeSocketsOverrides(MergeMains(s, src.mains, os), src.sockets);
  }

  /** Merging a service that matched adds no source and removes none. */
  lemma MatchedMergeKeepsSources(add: Svc, s: Svc, os: Os)
    requires Distinct(s.sockets) && Matches(add, s)
    ensures SourceMap(UpdateFrom(s, add, os).sockets).Keys == SourceMap(s.sockets).Keys
  {
    hide Source, SourceMap;
    MergeOverrides(s, add, os);
    forall source | source in SourceMap(add.sockets)
      ensures source in SourceMap(s.sockets)
    {
      SourceMapHas(add.sockets, source);
      SourceMapHas(s.sockets, source);
    }
  }

  /** Without any assumption on repeats: the sources after a merge are those of both sides. */
  lemma {:induction false} MergeSocketsHas(s: Svc, ks: seq<Sock>, source: string)
    ensures HasSource(MergeSockets(s, ks).sockets, source) <==> HasSource(s.sockets, source) || HasSource(ks, source)
  {
    hide Source, HasSource;
    if ks == [] {
      assert !HasSource(ks, source) by { NoSource(source); }
    } else {
      var init, k := ks[..|ks| - 1], ks[|ks| - 1];
      var t := MergeSockets(s, init);
      MergeSocketsHas(s, init, source);
      HasSourceLast(ks, source);
      EraseSourceHas(t, Source(k), source);
      SetSocketHas(EraseSource(t, Source(k)), k, source);
    }
  }

  lemma NoSource(source: string)
    ensures !HasSource([], source)
  {
  }

  lemma EraseSourceHas(s: Svc, erased: string, source: string)
    ensures HasSource(EraseSource(s, erased).sockets, source) ==> HasSource(s.sockets, source)
    ensures HasSource(s.sockets, source) && source != erased ==> HasSource(EraseSource(s, erased).sockets, source)
  {
    hide Source, HasSource;
    var i := SourceIndex(s.sockets, erased);
    if i >= 0 {
      HasSourceErase(s.sockets, i, source);
    }
  }

  lemma UpdateFromHas(s: Svc, src: Svc, os: Os, source: string)
    ensures HasSource(UpdateFrom(s, src, os).sockets, source)
       <==> HasSource(s.sockets, source) || HasSource(src.sockets, source)
  {
    hide Source, HasSource;
    MergeMainsFrame(s, src.mains, os);
    MergeSocketsHas(MergeMains(s, src.mains, os), src.sockets, source);
  }

  lemma {:induction false} AddHeldGrows(s: Svc, table: seq<Sock>, os: Os, source: string)
    ensures HasSource(s.sockets, source) ==> HasSource(AddHeld(s, table, os).sockets, source)
    ensures Distinct(s.sockets) ==> Distinct(AddHeld(s, table, os).sockets)
  {
    hide Source, HasSource, SetSocket;
    if table != [] {
      AddHeldGrows(s, table[..|table| - 1], os, source);
      SetSocketHas(AddHeld(s, table[..|table| - 1], os), table[|table| - 1], source);
    }
  }

  // ---------------------------------------------------------------- runs

  ghost predicate AllDistinct(ss: seq<Svc>) {
    forall i :: 0 <= i < |ss| ==> Distinct(ss[i].sockets)
  }

  ghost predicate Offers(ss: seq<Svc>, source: string) {
    exists i :: 0 <= i < |ss| && HasSource(ss[i].sockets, source)
  }

  lemma ReplaceOffers(ss: seq<Svc>, i: nat, t: Svc, source: string)
    requires i < |ss| && (HasSource(ss[i].sockets, source) ==> HasSource(t.sockets, source))
    ensures Offers(ss, source) ==> Offers(ss[i := t], source)
  {
    hide Source, HasSource;
    if Offers(ss, source) {
      var j :| 0 <= j < |ss| && HasSource(ss[j].sockets, source);
      assert HasSource(ss[i := t][j].sockets, source);
    }
  }

  lemma AddServiceSockets(ss: seq<Svc>, serv: Svc, env: Env, source: string)
    requires AllDistinct(ss) && Distinct(serv.sockets)
    ensures AllDistinct(AddService(ss, serv, env))
    ensures Offers(ss, source) ==> Offers(AddService(ss, serv, env), source)
  {
    hide AddService, UpdateFrom, Source, HasSource;
    var add, tt := Rename(serv, env.enhance(serv)), AddService(ss, serv, env);
    AddServiceCases(ss, serv, env);
    if tt == ss + [add] {
      if Offers(ss, source) {
        var j :| 0 <= j < |ss| && HasSource(ss[j].sockets, source);
        assert HasSource(tt[j].sockets, source);
      }
    } else {
      var i :| 0 <= i < |ss| && tt == ss[i := UpdateFrom(ss[i], add, env.os)];
      MergeOverrides(ss[i], add, env.os);
      UpdateFromHas(ss[i], add, env.os, source);
      ReplaceOffers(ss, i, UpdateFrom(ss[i], add, env.os), source);
    }
  }

  lemma DetectedDistinct(p: Proc, k: Sock, env: Env)
    ensures Distinct(Detected(p, k, env).sockets)
  {
    hide Source, SetSocket, AddMain;
    var blank := SetSocket(Blank(env.host), k);
    SetSocketHas(Blank(env.host), k, "");
    AddMainFrame(blank, p, env.os);
    AddHeldGrows(AddMain(blank, p, env.os), env.table, env.os, "");
  }

  lemma VisitSockets(ss: seq<Svc>, pid: nat, env: Env, source: string)
    requires AllDistinct(ss)
    ensures AllDistinct(Visit(ss, pid, env))
    ensures Offers(ss, source) ==> Offers(Visit(ss, pid, env), source)
  {
    hide Visit, AddService, AddHeld, Detected, Source, HasSource;
    VisitCases(ss, pid, env);
    match VisitOutcome(ss, pid, env) {
      case Update(i, t) =>
        AddHeldGrows(RefreshIn(ss[i], pid, env.os), env.table, env.os, source);
        ReplaceOffers(ss, i, t, source);
      case Child(i, t) =>
        ReplaceOffers(ss, i, t, source);
      case Ignored =>
      case Created(serv, p) =>
        var h := HeldIndex(env.table, p.fds);
        DetectedDistinct(p, env.table[h], env);
        AddServiceSockets(ss, serv, env, source);
    }
  }

  lemma UnitSockets(ss: seq<Svc>, pid: nat, unit: string, env: Env, source: string)
    requires AllDistinct(ss)
    ensures AllDistinct(DetectUnit(ss, pid, unit, env))
    ensures Offers(ss, source) ==> Offers(DetectUnit(ss, pid, unit, env), source)
  {
    hide AddService, AddMain, Source, HasSource;
    var p := NewProc(pid, env.os);
    var serv := AddMain(Blank(env.host).(uniq := unit), p, env.os);
    FirstMain(Blank(env.host).(uniq := unit), p, env.os);
    AddServiceSockets(ss, serv, env, source);
  }

  lemma ApplySockets(ss: seq<Svc>, step: Step, source: string)
    requires AllDistinct(ss)
    ensures AllDistinct(Apply(ss, step))
    ensures Offers(ss, source) ==> Offers(Apply(ss, step), source)
  {
    hide Visit, DetectUnit, Source, HasSource;
    match step {
      case Entry(pid, env) => VisitSockets(ss, pid, env, source);
      case Unit(pid, unit, env) => UnitSockets(ss, pid, unit, env, source);
      case Prune(i, os) =>
        if i < |ss| {
          ReplaceOffers(ss, i, ss[i].(subs := LiveOnly(ss[i].subs, os)), source);
        }
    }
  }

  /** Along every run no service lists a source twice, and no source is lost from the whole. */
  lemma {:induction false} SourcesAlongRuns(ss: seq<Svc>, steps: seq<Step>, source: string)
    requires AllDistinct(ss)
    ensures AllDistinct(Run(ss, steps))
    ensures Offers(ss, source) ==> Offers(Run(ss, steps), source)
  {
    hide Apply, Source, HasSource;
    if steps != [] {
      SourcesAlongRuns(ss, steps[..|steps| - 1], source);
      ApplySockets(Run(ss, steps[..|steps| - 1]), steps[|steps| - 1], source);
    }
  }
}
