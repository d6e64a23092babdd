/** The part of a service that its configuration file keeps: saving it and building a service from it. */
module ServiceConfig {
  import opened Sequences
  import opened SocketCodec
  import opened ServiceModel
  import opened SocketMerge
  import opened Ownership
  import opened OwnershipRuns

  datatype Member<T> = Absent | Present(value: T)

  /** A missing array loads like an empty one. */
  datatype Config = Config(sockets: seq<string>, process: seq<string>, uniqName: Member<string>, host: Member<string>)

  // ---------------------------------------------------------------- saving

  function Sources(ks: seq<Sock>): (r: seq<string>)
    ensures |r| == |ks|
  {
    if ks == [] then [] else Sources(ks[..|ks| - 1]) + [Source(ks[|ks| - 1])]
  }

  function Paths(ps: seq<Proc>): (r: seq<string>)
    ensures |r| == |ps|
  {
    if ps == [] then [] else Paths(ps[..|ps| - 1]) + [ps[|ps| - 1].path]
  }

  /** `setDefaultConfig`. */
  function Save(s: Svc): Config {
    Config(Sources(s.sockets), Paths(s.mains), Present(s.uniq), Present(s.host))
  }

  // ---------------------------------------------------------------- loading

  /** What the memory of a new socket holds: its id is not assigned, nor are the fields of a dotted
      address behind the first that cannot be read. */
  datatype Memory = Memory(id: nat, stale: Stale)

  function LoadSockets(s: Svc, lines: seq<string>, memory: nat -> Memory): Result<Svc> {
    if lines == [] then Ok(s)
    else
      var n := |lines| - 1;
      match LoadSockets(s, lines[..n], memory)
      case Ok(t) =>
        (match FromSource(lines[n], memory(n).stale)
         case Ok(e) => Ok(SetSocket(t, Sock(memory(n).id, e)))
         case OutOfRange => OutOfRange)
      case OutOfRange => OutOfRange
  }

  /** Processes from the configuration carry pid 0, so that the host is not consulted. */
  function AddConfigured(s: Svc, path: string): Svc {
    AddMain(s, Proc(0, path, []), Os(map[], {}, map[], map[]))
  }

  function LoadMains(s: Svc, paths: seq<string>): Svc {
    if paths == [] then s
    else AddConfigured(LoadMains(s, paths[..|paths| - 1]), paths[|paths| - 1])
  }

  function OrElse(m: Member<string>, otherwise: string): string {
    match m
    case Present(v) => v
    case Absent => otherwise
  }

  /** After the sockets: the key and the host, then the processes; a missing host is the machine's own. */
  function LoadRest(s: Svc, cfg: Config, machine: string): Svc {
    var u := LoadMains(s.(uniq := OrElse(cfg.uniqName, s.uniq), host := OrElse(cfg.host, s.host)), cfg.process);
    if u.host == "" then u.(host := machine) else u
  }

  /** The constructor from a configuration. */
  function Load(cfg: Config, memory: nat -> Memory, machine: string): Result<Svc> {
    match LoadSockets(Blank(""), cfg.sockets, memory)
    case Ok(t) => Ok(LoadRest(t, cfg, machine))
    case e => e
  }

  // ---------------------------------------------------------------- lemmas

  /** One line that throws stops the whole loading. */
  lemma {:induction false} UnreadableLine(s: Svc, lines: seq<string>, n: nat, memory: nat -> Memory)
    requires n <= |lines| && !LoadSockets(s, lines[..n], memory).Ok?
    ensures !LoadSockets(s, lines, memory).Ok?
    decreases |lines|
  {
    hide FromSource, SetSocket;
    if n < |lines| {
      assert lines[..|lines| - 1][..n] == lines[..n];
      UnreadableLine(s, lines[..|lines| - 1], n, memory);
    } else {
      assert lines[..n] == lines;
    }
  }

  lemma SetNewSocket(s: Svc, k: Sock)
    requires !HasSource(s.sockets, Source(k))
    ensures SetSocket(s, k).sockets == s.sockets + [k]
    ensures SetSocket(s, k) == s.(sockets := s.sockets + [k], uniq := SetSocket(s, k).uniq)
  {
  }

  ghost predicate SameEndpoints(ks: seq<Sock>, ls: seq<Sock>) {
    |ks| == |ls| && forall i :: 0 <= i < |ks| ==> ks[i].endpoint == ls[i].endpoint
  }

  /** Loading saved sockets adds them one by one, none being a repeat. */
  lemma {:induction false} SocketsRoundTrip(ks: seq<Sock>, memory: nat -> Memory)
    requires Distinct(ks) && forall i :: 0 <= i < |ks| ==> Valid(ks[i].endpoint)
    ensures var r := LoadSockets(Blank(""), Sources(ks), memory);
      r.Ok? && SameEndpoints(ks, r.value.sockets) && r.value == Blank("").(sockets := r.value.sockets, uniq := r.value.uniq)
  {
    hide Source, FromSource, SetSocket, Valid;
    if ks != [] {
      var n := |ks| - 1;
      SocketsRoundTrip(ks[..n], memory);
      var t := LoadSockets(Blank(""), Sources(ks[..n]), memory).value;
      SourceRead(ks[n], memory(n).stale);
      assert Sources(ks)[..n] == Sources(ks[..n]);
      assert Sources(ks)[n] == Source(ks[n]);
      var k := Sock(memory(n).id, ks[n].endpoint);
      NotYetListed(ks, t.sockets, k);
      SetNewSocket(t, k);
    }
  }

  lemma SourceRead(k: Sock, stale: Stale)
    requires Valid(k.endpoint)
    ensures FromSource(Source(k), stale) == Ok(k.endpoint)
  {
    hide FromSource;
    SourceRoundTrip(k.endpoint, stale);
  }

  lemma NotYetListed(ks: seq<Sock>, loaded: seq<Sock>, k: Sock)
    requires ks != [] && Distinct(ks) && SameEndpoints(ks[..|ks| - 1], loaded) && k.endpoint == ks[|ks| - 1].endpoint
    ensures !HasSource(loaded, Source(k))
  {
    forall i | 0 <= i < |loaded|
      ensures Source(loaded[i]) != Source(k)
    {
      SameEndpointSameSource(loaded[i], ks[i]);
      SameEndpointSameSource(k, ks[|ks| - 1]);
      assert ks[..|ks| - 1][i] == ks[i];
    }
  }

  lemma SameEndpointSameSource(a: Sock, b: Sock)
    requires a.endpoint == b.endpoint
    ensures Source(a) == Source(b)
  {
  }

  ghost predicate AllConfigured(ps: seq<Proc>) {
    forall m :: m in ps ==> m.pid == 0
  }

  lemma OneMoreConfigured(s: Svc, path: string)
    ensures var t := AddConfigured(s, path);
      t == s.(name := t.name, mains := s.mains + [Proc(0, path, [])])
  {
    hide BaseName, HasPid;
  }

  lemma PathsAppend(ps: seq<Proc>, p: Proc)
    ensures Paths(ps + [p]) == Paths(ps) + [p.path]
  {
    assert (ps + [p])[..|ps|] == ps;
  }

  lemma {:induction false} MainsRoundTrip(s: Svc, paths: seq<string>)
    requires AllConfigured(s.mains)
    ensures var t := LoadMains(s, paths);
      Paths(t.mains) == Paths(s.mains) + paths && AllConfigured(t.mains) && t == s.(name := t.name, mains := t.mains)
  {
    hide AddConfigured, Paths;
    if paths == [] {
      assert Paths(s.mains) + paths == Paths(s.mains);
    } else {
      var n := |paths| - 1;
      MainsRoundTrip(s, paths[..n]);
      var t := LoadMains(s, paths[..n]);
      OneMoreConfigured(t, paths[n]);
      PathsAppend(t.mains, Proc(0, paths[n], []));
      LastApart(Paths(s.mains), paths);
    }
  }

  lemma RestRoundTrip(t: Svc, s: Svc, machine: string)
    requires t.mains == []
    ensures var r := LoadRest(t, Save(s), machine);
      && r.sockets == t.sockets
      && Paths(r.mains) == Paths(s.mains)
      && r.uniq == s.uniq
      && (r.host == s.host <==> s.host != "" || machine == "")
  {
    hide LoadMains, Sources;
    MainsRoundTrip(t.(uniq := s.uniq, host := s.host), Paths(s.mains));
    assert Paths(t.mains) == [];
    assert [] + Paths(s.mains) == Paths(s.mains);
  }

  /** Loading what was saved rebuilds the sockets and the process paths in order and the key; the
      host too, exactly when it was saved non-empty or the machine has no name either. */
  lemma ConfigRoundTrip(s: Svc, memory: nat -> Memory, machine: string)
    requires Distinct(s.sockets) && forall i :: 0 <= i < |s.sockets| ==> Valid(s.sockets[i].endpoint)
    ensures var r := Load(Save(s), memory, machine);
      && r.Ok?
      && SameEndpoints(s.sockets, r.value.sockets)
      && Paths(r.value.mains) == Paths(s.mains)
      && r.value.uniq == s.uniq
      && (r.value.host == s.host <==> s.host != "" || machine == "")
  {
    hide LoadSockets, LoadRest, Distinct, Valid, SameEndpoints, Sources, Paths;
    SocketsRoundTrip(s.sockets, memory);
    RestRoundTrip(LoadSockets(Blank(""), Sources(s.sockets), memory).value, s, machine);
  }

  lemma {:induction false} SameEndpointsSameSources(ks: seq<Sock>, ls: seq<Sock>)
    requires SameEndpoints(ks, ls)
    ensures Sources(ks) == Sources(ls)
  {
    hide Source;
    if ks != [] {
      var n := |ks| - 1;
      SameEndpointsSameSources(ks[..n], ls[..n]);
      SameEndpointSameSource(ks[n], ls[n]);
    }
  }

  /** Saving the reloaded service writes the same configuration again. */
  lemma SaveIsStable(s: Svc, memory: nat -> Memory, machine: string)
    requires Distinct(s.sockets) && (forall i :: 0 <= i < |s.sockets| ==> Valid(s.sockets[i].endpoint)) && s.host != ""
    ensures Load(Save(s), memory, machine).Ok? && Save(Load(Save(s), memory, machine).value) == Save(s)
  {
    hide Load, Distinct, Valid, Sources, Paths;
    ConfigRoundTrip(s, memory, machine);
    SameEndpointsSameSources(s.sockets, Load(Save(s), memory, machine).value.sockets);
  }

  // ---------------------------------------------------------------- where runs start

  lemma {:induction false} LoadSocketsDistinct(s: Svc, lines: seq<string>, memory: nat -> Memory)
    requires Distinct(s.sockets)
    ensures var r := LoadSockets(s, lines, memory);
      r.Ok? ==> Distinct(r.value.sockets) && r.value.mains == s.mains && r.value.subs == s.subs
  {
    hide Source, FromSource, UniqName;
    if lines != [] {
      var n := |lines| - 1;
      LoadSocketsDistinct(s, lines[..n], memory);
      var r := LoadSockets(s, lines[..n], memory);
      if r.Ok? && FromSource(lines[n], memory(n).stale).Ok? {
        SetSocketHas(r.value, Sock(memory(n).id, FromSource(lines[n], memory(n).stale).value), "");
      }
    }
  }

  /** Any service that loads at all has distinct sources and only pid-0 main processes: runs from
      configured services start where the invariants need them to. */
  lemma LoadedIsConfigured(cfg: Config, memory: nat -> Memory, machine: string)
    requires Load(cfg, memory, machine).Ok?
    ensures var s := Load(cfg, memory, machine).value;
      Configured([s]) && AllDistinct([s])
  {
    hide LoadSockets, LoadMains, Distinct;
    assert Distinct([]) by { NothingRepeats(); }
    LoadSocketsDistinct(Blank(""), cfg.sockets, memory);
    var t := LoadSockets(Blank(""), cfg.sockets, memory).value;
    MainsRoundTrip(t.(uniq := OrElse(cfg.uniqName, t.uniq), host := OrElse(cfg.host, t.host)), cfg.process);
  }

  lemma NothingRepeats()
    ensures Distinct([])
  {
  }

  // ---------------------------------------------------------------- members that are missing

  lemma {:induction false} KeyOfSockets(lines: seq<string>, memory: nat -> Memory)
    requires LoadSockets(Blank(""), lines, memory).Ok?
    ensures var t := LoadSockets(Blank(""), lines, memory).value;
      && t == Blank("").(sockets := t.sockets, uniq := t.uniq)
      && (t.sockets == [] <==> lines == []) && t.uniq == if lines == [] then "" else UniqName(t.sockets[0].endpoint)
  {
    hide Source, FromSource, UniqName, HasSource;
    if lines != [] {
      var n := |lines| - 1;
      KeyOfSockets(lines[..n], memory);
      var t := LoadSockets(Blank(""), lines[..n], memory).value;
      KeyNotEmpty(t);
      if t.sockets == [] {
        NoSourceYet(FromSourceOf(lines[n], memory(n)));
      }
    }
  }

  function FromSourceOf(line: string, m: Memory): string {
    match FromSource(line, m.stale)
    case Ok(e) => Source(Sock(m.id, e))
    case OutOfRange => ""
  }

  lemma NoSourceYet(source: string)
    ensures !HasSource([], source)
  {
  }

  lemma KeyNotEmpty(s: Svc)
    ensures s.sockets != [] ==> UniqName(s.sockets[0].endpoint) != ""
  {
    hide Body;
  }

  lemma {:induction false} NameOfMains(s: Svc, paths: seq<string>)
    requires s.mains == []
    ensures var t := LoadMains(s, paths);
      |t.mains| == |paths| && (forall i :: 0 <= i < |paths| ==> t.mains[i] == Proc(0, paths[i], []))
      && (s.name == "" && paths != [] ==> t.name == BaseName(paths[0])) && (paths == [] ==> t.name == s.name)
  {
    hide BaseName, HasPid;
    if paths != [] {
      NameOfMains(s, paths[..|paths| - 1]);
    }
  }

  /** What a configuration that leaves members out gives: the key is the first socket's, the host the
      machine's, the name that of the first process's program. */
  lemma MissingMembers(cfg: Config, memory: nat -> Memory, machine: string)
    requires Load(cfg, memory, machine).Ok?
    ensures var s := Load(cfg, memory, machine).value;
      && (s.sockets == [] <==> cfg.sockets == [])
      && (cfg.uniqName == Absent ==> s.uniq == if cfg.sockets == [] then "" else UniqName(s.sockets[0].endpoint))
      && (cfg.uniqName.Present? ==> s.uniq == cfg.uniqName.value)
      && s.host == (if cfg.host.Present? && cfg.host.value != "" then cfg.host.value else machine)
      && |s.mains| == |cfg.process| && (forall i :: 0 <= i < |cfg.process| ==> s.mains[i] == Proc(0, cfg.process[i], []))
      && s.name == (if cfg.process == [] then "" else BaseName(cfg.process[0])) && s.kind == "unknown" && s.subs == []
  {
    hide LoadSockets, LoadMains, UniqName, BaseName;
    KeyOfSockets(cfg.sockets, memory);
    var t := LoadSockets(Blank(""), cfg.sockets, memory).value;
    var u := t.(uniq := OrElse(cfg.uniqName, t.uniq), host := OrElse(cfg.host, t.host));
    NameOfMains(u, cfg.process);
    MainsRoundTrip(u, cfg.process);
  }
}
