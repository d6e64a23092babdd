/** The collector of a service's I/O: what it reports in one round, and why a per-process history
    that is fed by it is never used while empty. */
module IoCollector {
  import opened ServiceModel
  import opened Ownership
  import opened OwnershipRuns
  import P = PidAccumulation
  import S = ServiceClass

  /** A line of `/proc/<pid>/io`. */
  datatype Line = Line(key: string, value: nat)

  /** The kernel prints each of the two counters once. */
  ghost predicate PrintedOnce(lines: seq<Line>) {
    forall i, j :: 0 <= i < j < |lines| && lines[i].key == lines[j].key ==>
      lines[i].key != "read_bytes" && lines[i].key != "write_bytes"
  }

  function LineReports(pid: nat, line: Line): seq<P.Report> {
    if line.key == "read_bytes" then [P.Report("rd", pid, line.value)]
    else if line.key == "write_bytes" then [P.Report("wt", pid, line.value)]
    else []
  }

  function FileReports(pid: nat, lines: seq<Line>): seq<P.Report> {
    if lines == [] then []
    else FileReports(pid, lines[..|lines| - 1]) + LineReports(pid, lines[|lines| - 1])
  }

  /** One round of `collect`, over the files that can be opened. */
  function Collect(pids: seq<nat>, files: map<nat, seq<Line>>): seq<P.Report> {
    if pids == [] then []
    else
      var pid := pids[|pids| - 1];
      Collect(pids[..|pids| - 1], files) + (if pid in files then FileReports(pid, files[pid]) else [])
  }

  /** What `getPIDs` answers for a service. */
  function ServicePids(s: Svc, os: Os): seq<nat> {
    S.PidsOf(s.mains) + S.PidsOf(LiveOnly(s.subs, os))
  }

  lemma OnceTogether(a: seq<P.Report>, b: seq<P.Report>)
    requires P.OncePerTick(a) && P.OncePerTick(b)
    requires forall i, j :: 0 <= i < |a| && 0 <= j < |b| ==> a[i].name != b[j].name || a[i].pid != b[j].pid
    ensures P.OncePerTick(a + b)
  {
  }

  lemma {:induction false} FileReportsOnce(pid: nat, lines: seq<Line>)
    requires PrintedOnce(lines)
    ensures var rs := FileReports(pid, lines);
      && P.OncePerTick(rs)
      && forall i :: 0 <= i < |rs| ==>
           rs[i].pid == pid && (rs[i].name == "rd" || rs[i].name == "wt")
           && exists l :: 0 <= l < |lines| && lines[l].key == (if rs[i].name == "rd" then "read_bytes" else "write_bytes")
  {
    hide PrintedOnce, P.OncePerTick;
    if lines == [] {
      NoReports();
    } else {
      var init, last := lines[..|lines| - 1], lines[|lines| - 1];
      LastLine(lines);
      FileReportsOnce(pid, init);
      var before, more := FileReports(pid, init), LineReports(pid, last);
      OneReport(more);
      forall i | 0 <= i < |before|
        ensures exists l :: 0 <= l < |lines| && lines[l].key == (if before[i].name == "rd" then "read_bytes" else "write_bytes")
      {
        var l :| 0 <= l < |init| && init[l].key == (if before[i].name == "rd" then "read_bytes" else "write_bytes");
        assert lines[l] == init[l];
      }
      assert lines[|lines| - 1] == last;
      OnceTogether(before, more);
    }
  }

  lemma NoReports()
    ensures P.OncePerTick([])
  {
  }

  lemma OneReport(rs: seq<P.Report>)
    requires |rs| <= 1
    ensures P.OncePerTick(rs)
  {
  }

  lemma LastLine(lines: seq<Line>)
    requires lines != [] && PrintedOnce(lines)
    ensures PrintedOnce(lines[..|lines| - 1])
    ensures var init, last := lines[..|lines| - 1], lines[|lines| - 1];
      last.key == "read_bytes" || last.key == "write_bytes" ==> forall l :: 0 <= l < |init| ==> init[l].key != last.key
  {
  }

  /** No pid but 0, which no process has, is listed twice. */
  ghost predicate ListedOnce(pids: seq<nat>) {
    forall i, j :: 0 <= i < j < |pids| && pids[i] == pids[j] ==> pids[i] == 0
  }

  lemma {:induction false} CollectOnce(pids: seq<nat>, files: map<nat, seq<Line>>)
    requires ListedOnce(pids) && 0 !in files && forall pid :: pid in files ==> PrintedOnce(files[pid])
    ensures var rs := Collect(pids, files);
      P.OncePerTick(rs) && forall i :: 0 <= i < |rs| ==> rs[i].pid in pids && rs[i].pid in files
  {
    hide PrintedOnce, P.OncePerTick, FileReports;
    if pids == [] {
      NoReports();
    } else {
      var init, pid := pids[..|pids| - 1], pids[|pids| - 1];
      CollectOnce(init, files);
      if pid in files {
        FileReportsOnce(pid, files[pid]);
        assert pid !in init;
        OnceTogether(Collect(init, files), FileReports(pid, files[pid]));
      } else {
        assert Collect(init, files) + [] == Collect(init, files);
      }
    }
  }

  lemma {:induction false} PidsAt(ps: seq<Proc>)
    ensures |S.PidsOf(ps)| == |ps| && forall i :: 0 <= i < |ps| ==> S.PidsOf(ps)[i] == ps[i].pid
  {
    if ps != [] {
      PidsAt(ps[..|ps| - 1]);
    }
  }

  /** A service that files no process twice lists no process twice. */
  lemma UniqueListsOnce(s: Svc, os: Os)
    requires Unique(s)
    ensures ListedOnce(ServicePids(s, os))
  {
    hide LiveOnly;
    var subs := LiveOnly(s.subs, os);
    var pids := ServicePids(s, os);
    LiveOnlyNoDup(s.subs, os);
    PidsAt(s.mains);
    PidsAt(subs);
    forall i, j | 0 <= i < j < |pids| && pids[i] == pids[j]
      ensures pids[i] == 0
    {
      LiveOnlyKnows(s.subs, os, pids[i]);
      if i < |s.mains| <= j {
        assert s.mains[i].pid == subs[j - |s.mains|].pid == pids[i];
        assert HasPid(s.mains, pids[i]) && HasPid(subs, pids[i]);
      }
    }
  }

  /** A round of the collector for service `at` in the state that `steps` led to. */
  ghost predicate CollectedFor(round: P.Round, start: seq<Svc>, steps: seq<Step>, at: nat, os: Os, files: map<nat, seq<Line>>) {
    && at < |Run(start, steps)|
    && 0 !in files && (forall pid :: pid in files ==> PrintedOnce(files[pid]))
    && round.reports == Collect(ServicePids(Run(start, steps)[at], os), files)
  }

  /** Whatever discovery does between the rounds, the I/O history of a service is never used while
      empty: that every process is filed once makes every counter reported once per tick. */
  lemma IoHistoryIsSafe(start: seq<Svc>, rounds: seq<P.Round>, steps: seq<seq<Step>>, ats: seq<nat>, oses: seq<Os>,
                        files: seq<map<nat, seq<Line>>>, size: nat, factor: real)
    requires Configured(start) && size >= 1
    requires |rounds| == |steps| == |ats| == |oses| == |files|
    requires forall k :: 0 <= k < |rounds| ==> CollectedFor(rounds[k], start, steps[k], ats[k], oses[k], files[k])
    ensures !P.Run(rounds, size, factor).fault
  {
    hide P.Run, P.OncePerTick, Collect, ServicePids, ListedOnce, Unique;
    forall k | 0 <= k < |rounds|
      ensures P.OncePerTick(rounds[k].reports)
    {
      assert CollectedFor(rounds[k], start, steps[k], ats[k], oses[k], files[k]);
      EveryPidOnce(start, steps[k]);
      UniqueListsOnce(Run(start, steps[k])[ats[k]], oses[k]);
      CollectOnce(ServicePids(Run(start, steps[k])[ats[k]], oses[k]), files[k]);
    }
    P.NeverFaults(rounds, size, factor);
  }

  // ---------------------------------------------------------------- what is reported

  /** What a line says about a counter. */
  ghost predicate Says(line: Line, name: string, value: nat) {
    line.value == value && ((name == "rd" && line.key == "read_bytes") || (name == "wt" && line.key == "write_bytes"))
  }

  lemma {:induction false} FileReportsExactly(pid: nat, lines: seq<Line>, r: P.Report)
    ensures r in FileReports(pid, lines) <==> r.pid == pid && exists line :: line in lines && Says(line, r.name, r.value)
  {
    if lines != [] {
      var init, last := lines[..|lines| - 1], lines[|lines| - 1];
      assert lines == init + [last];
      FileReportsExactly(pid, init, r);
      assert r in LineReports(pid, last) <==> r.pid == pid && Says(last, r.name, r.value);
    }
  }

  /** A round reports exactly the counters in the files of the listed processes, with their values. */
  lemma {:induction false} CollectsExactly(pids: seq<nat>, files: map<nat, seq<Line>>, r: P.Report)
    ensures r in Collect(pids, files) <==>
      r.pid in pids && r.pid in files && exists line :: line in files[r.pid] && Says(line, r.name, r.value)
  {
    hide FileReports, Says;
    if pids != [] {
      var init, pid := pids[..|pids| - 1], pids[|pids| - 1];
      assert pids == init + [pid];
      CollectsExactly(init, files, r);
      if pid in files {
        FileReportsExactly(pid, files[pid], r);
      }
    }
  }
}
