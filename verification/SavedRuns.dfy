/** Saving and loading in every state a run can reach: the sockets of a service come from the kernel's
    tables and from configurations, so their fields are in range. */
module SavedRuns {
  import opened Sequences
  import opened SocketCodec
  import opened ServiceModel
  import opened Ownership
  import opened OwnershipRuns
  import opened SocketMerge
  import opened ServiceConfig

  ghost predicate ValidSockets(ks: seq<Sock>) {
    forall k :: k in ks ==> Valid(k.endpoint)
  }

  ghost predicate AllValid(ss: seq<Svc>) {
    forall i :: 0 <= i < |ss| ==> ValidSockets(ss[i].sockets)
  }

  // ---------------------------------------------------------------- operations

  lemma SetSocketValid(s: Svc, k: Sock)
    requires ValidSockets(s.sockets) && Valid(k.endpoint)
    ensures ValidSockets(SetSocket(s, k).sockets)
  {
    hide Valid, HasSource, Source, UniqName;
  }

  lemma EraseSourceValid(s: Svc, source: string)
    requires ValidSockets(s.sockets)
    ensures ValidSockets(EraseSource(s, source).sockets)
  {
    hide Valid, SourceIndex;
  }

  lemma {:induction false} MergeSocketsValid(s: Svc, ks: seq<Sock>)
    requires ValidSockets(s.sockets) && ValidSockets(ks)
    ensures ValidSockets(MergeSockets(s, ks).sockets)
  {
    hide Valid, EraseSource, SetSocket, Source;
    if ks != [] {
      var init, k := ks[..|ks| - 1], ks[|ks| - 1];
      MergeSocketsValid(s, init);
      EraseSourceValid(MergeSockets(s, init), Source(k));
      SetSocketValid(EraseSource(MergeSockets(s, init), Source(k)), k);
    }
  }

  lemma UpdateFromValid(s: Svc, src: Svc, os: Os)
    requires ValidSockets(s.sockets) && ValidSockets(src.sockets)
    ensures ValidSockets(UpdateFrom(s, src, os).sockets)
  {
    hide ValidSockets, MergeMains, MergeSockets;
    MergeMainsFrame(s, src.mains, os);
    MergeSocketsValid(MergeMains(s, src.mains, os), src.sockets);
  }

  lemma {:induction false} AddHeldValid(s: Svc, table: seq<Sock>, os: Os)
    requires ValidSockets(s.sockets) && ValidSockets(table)
    ensures ValidSockets(AddHeld(s, table, os).sockets)
  {
    hide Valid, SetSocket, HaveSocket;
    if table != [] {
      var init := table[..|table| - 1];
      AddHeldValid(s, init, os);
      SetSocketValid(AddHeld(s, init, os), table[|table| - 1]);
    }
  }

  lemma DetectedValid(p: Proc, k: Sock, env: Env)
    requires Valid(k.endpoint) && ValidSockets(env.table)
    ensures ValidSockets(Detected(p, k, env).sockets)
  {
    hide Valid, SetSocket, AddMain, AddHeld;
    SetSocketValid(Blank(env.host), k);
    AddMainFrame(SetSocket(Blank(env.host), k), p, env.os);
    AddHeldValid(AddMain(SetSocket(Blank(env.host), k), p, env.os), env.table, env.os);
  }

  lemma ReplaceValid(ss: seq<Svc>, i: nat, t: Svc)
    requires AllValid(ss) && i < |ss| && ValidSockets(t.sockets)
    ensures AllValid(ss[i := t])
  {
    hide ValidSockets;
  }

  lemma AddServiceValid(ss: seq<Svc>, serv: Svc, env: Env)
    requires AllValid(ss) && ValidSockets(serv.sockets)
    ensures AllValid(AddService(ss, serv, env))
  {
    hide AddService, UpdateFrom, ValidSockets;
    var add, tt := Rename(serv, env.enhance(serv)), AddService(ss, serv, env);
    AddServiceCases(ss, serv, env);
    if tt != ss + [add] {
      var i :| 0 <= i < |ss| && tt == ss[i := UpdateFrom(ss[i], add, env.os)];
      UpdateFromValid(ss[i], add, env.os);
      ReplaceValid(ss, i, UpdateFrom(ss[i], add, env.os));
    }
  }

  lemma RefreshedSockets(s: Svc, pid: nat, os: Os)
    ensures RefreshIn(s, pid, os).sockets == s.sockets
  {
  }

  lemma TableValid(table: seq<Sock>, h: nat)
    requires ValidSockets(table) && h < |table|
    ensures Valid(table[h].endpoint)
  {
  }

  lemma VisitValid(ss: seq<Svc>, pid: nat, env: Env)
    requires AllValid(ss) && ValidSockets(env.table)
    ensures AllValid(Visit(ss, pid, env))
  {
    hide Visit, AddService, AddHeld, Detected, ValidSockets, RefreshIn, Valid;
    VisitCases(ss, pid, env);
    match VisitOutcome(ss, pid, env) {
      case Update(i, t) =>
        RefreshedSockets(ss[i], pid, env.os);
        AddHeldValid(RefreshIn(ss[i], pid, env.os), env.table, env.os);
        ReplaceValid(ss, i, t);
      case Child(i, t) =>
        ReplaceValid(ss, i, t);
      case Ignored =>
      case Created(serv, p) =>
        var h := HeldIndex(env.table, p.fds);
        TableValid(env.table, h);
        DetectedValid(p, env.table[h], env);
        AddServiceValid(ss, serv, env);
    }
  }

  lemma UnitValid(ss: seq<Svc>, pid: nat, unit: string, env: Env)
    requires AllValid(ss)
    ensures AllValid(DetectUnit(ss, pid, unit, env))
  {
    hide AddService, AddMain;
    var p, blank := NewProc(pid, env.os), Blank(env.host).(uniq := unit);
    FirstMain(blank, p, env.os);
    AddServiceValid(ss, AddMain(blank, p, env.os), env);
  }

  // ---------------------------------------------------------------- runs

  /** The tables a step looks at hold what the kernel's texts were read to. */
  ghost predicate FromKernel(step: Step) {
    step.Entry? ==> ValidSockets(step.env.table)
  }

  lemma ApplyValid(ss: seq<Svc>, step: Step)
    requires AllValid(ss) && FromKernel(step)
    ensures AllValid(Apply(ss, step))
  {
    hide Visit, DetectUnit, ValidSockets;
    match step {
      case Entry(pid, env) => VisitValid(ss, pid, env);
      case Unit(pid, unit, env) => UnitValid(ss, pid, unit, env);
      case Prune(i, os) =>
        if i < |ss| {
          ReplaceValid(ss, i, ss[i].(subs := LiveOnly(ss[i].subs, os)));
        }
    }
  }

  lemma {:induction false} RunValid(ss: seq<Svc>, steps: seq<Step>)
    requires AllValid(ss) && forall i :: 0 <= i < |steps| ==> FromKernel(steps[i])
    ensures AllValid(Run(ss, steps))
  {
    hide Apply, AllValid, FromKernel;
    if steps != [] {
      RunValid(ss, steps[..|steps| - 1]);
      ApplyValid(Run(ss, steps[..|steps| - 1]), steps[|steps| - 1]);
    }
  }

  // ---------------------------------------------------------------- where runs start

  /** The services were loaded, each from its own configuration. */
  ghost predicate Loaded(ss: seq<Svc>, cfgs: seq<Config>, memory: nat -> nat -> Memory, machine: string) {
    |ss| == |cfgs| && forall i :: 0 <= i < |ss| ==> Load(cfgs[i], memory(i), machine) == Ok(ss[i])
  }

  lemma {:induction false} LoadSocketsValid(s: Svc, lines: seq<string>, memory: nat -> Memory)
    requires ValidSockets(s.sockets)
    ensures var r := LoadSockets(s, lines, memory); r.Ok? ==> ValidSockets(r.value.sockets)
  {
    hide FromSource, SetSocket, Valid;
    if lines != [] {
      var n := |lines| - 1;
      LoadSocketsValid(s, lines[..n], memory);
      var r := LoadSockets(s, lines[..n], memory);
      FromSourceValid(lines[n], memory(n).stale);
      if r.Ok? && FromSource(lines[n], memory(n).stale).Ok? {
        SetSocketValid(r.value, Sock(memory(n).id, FromSource(lines[n], memory(n).stale).value));
      }
    }
  }

  lemma {:induction false} LoadMainsFrame(s: Svc, paths: seq<string>)
    ensures LoadMains(s, paths).sockets == s.sockets
  {
    hide AddConfigured;
    if paths != [] {
      LoadMainsFrame(s, paths[..|paths| - 1]);
      OneMoreConfigured(LoadMains(s, paths[..|paths| - 1]), paths[|paths| - 1]);
    }
  }

  lemma LoadValid(cfg: Config, memory: nat -> Memory, machine: string)
    requires Load(cfg, memory, machine).Ok?
    ensures ValidSockets(Load(cfg, memory, machine).value.sockets)
  {
    hide LoadSockets, LoadMains, Valid;
    LoadSocketsValid(Blank(""), cfg.sockets, memory);
    var t := LoadSockets(Blank(""), cfg.sockets, memory).value;
    LoadMainsFrame(t.(uniq := OrElse(cfg.uniqName, t.uniq), host := OrElse(cfg.host, t.host)), cfg.process);
  }

  /** A list of loaded services meets the starting conditions of all the invariants. */
  lemma LoadedListStarts(ss: seq<Svc>, cfgs: seq<Config>, memory: nat -> nat -> Memory, machine: string)
    requires Loaded(ss, cfgs, memory, machine)
    ensures Configured(ss) && AllDistinct(ss) && AllValid(ss)
  {
    hide Load, ValidSockets, Distinct;
    forall i | 0 <= i < |ss|
      ensures Configured([ss[i]]) && AllDistinct([ss[i]]) && ValidSockets(ss[i].sockets)
    {
      LoadedIsConfigured(cfgs[i], memory(i), machine);
      LoadValid(cfgs[i], memory(i), machine);
    }
    forall i | 0 <= i < |ss|
      ensures ss[i].subs == [] && (forall m :: m in ss[i].mains ==> m.pid == 0) && Distinct(ss[i].sockets)
    {
      assert [ss[i]][0] == ss[i];
    }
  }

  /** Every service of every state that a run reaches from loaded configurations survives being
      saved and loaded again. */
  lemma EveryStateSurvives(ss: seq<Svc>, cfgs: seq<Config>, before: nat -> nat -> Memory, machine: string,
                           steps: seq<Step>, i: nat, memory: nat -> Memory)
    requires Loaded(ss, cfgs, before, machine) && forall j :: 0 <= j < |steps| ==> FromKernel(steps[j])
    requires i < |Run(ss, steps)|
    ensures var s := Run(ss, steps)[i];
      var r := Load(Save(s), memory, machine);
      && r.Ok?
      && SameEndpoints(s.sockets, r.value.sockets)
      && Paths(r.value.mains) == Paths(s.mains)
      && r.value.uniq == s.uniq
      && (r.value.host == s.host <==> s.host != "" || machine == "")
  {
    hide Loaded, Run, Load, Save, SameEndpoints, Paths, FromKernel, Valid, Distinct;
    LoadedListStarts(ss, cfgs, before, machine);
    SourcesAlongRuns(ss, steps, "");
    RunValid(ss, steps);
    ConfigRoundTrip(Run(ss, steps)[i], memory, machine);
  }

  // ---------------------------------------------------------------- the kernel's tables

  /** A socket as the constructor from a table line makes it. */
  function FromLine(kind: string, address: string, id: nat): Result<Sock> {
    match if IsV4(kind) then SetSockFrom(address) else SetSockFrom6(address)
    case Ok(r) => Ok(Sock(id, Endpoint(kind, r.0, r.1)))
    case OutOfRange => OutOfRange
  }

  /** The sockets of the four tables are as `FromKernel` asks, whatever the lines say. */
  lemma LinesAreValid(kind: string, address: string, id: nat)
    requires kind in {"tcp", "udp", "tcp6", "udp6"}
    ensures FromLine(kind, address, id).Ok? ==> Valid(FromLine(kind, address, id).value.endpoint)
  {
    hide SetSockFrom, SetSockFrom6, Valid;
    KernelValid(kind, address);
  }
}
