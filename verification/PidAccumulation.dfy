/** Counters that many processes contribute to: every tick's row holds `factor` times what the
    processes known before have added since they last reported. */
module PidAccumulation {
  import opened History

  type Values = map<string, map<nat, nat>>

  datatype Report = Report(name: string, pid: nat, value: nat)

  /** What a report adds: nothing for a process seen for the first time, or one that went back. */
  function Increase(values: Values, r: Report): nat {
    if r.name in values && r.pid in values[r.name] && values[r.name][r.pid] < r.value
    then r.value - values[r.name][r.pid] else 0
  }

  function Store(values: Values, r: Report): Values {
    values[r.name := (if r.name in values then values[r.name] else map[])[r.pid := r.value]]
  }

  /** A row's number as `asDouble` reads it: a missing one is 0. */
  function Number(row: Row, name: string): real {
    if name in row then row[name] else 0.0
  }

  function Zeroed(row: Row, names: set<string>): Row {
    row + map n | n in names :: 0.0
  }

  /** `fault` is set once the code would use the first row of an empty history. */
  datatype State = State(v: seq<Row>, values: Values, fault: bool)

  function Next(st: State, size: nat, now: real): State {
    if st.values == map[] then st
    else
      var v := NextValue(st.v, size, now);
      if v == [] then st.(fault := true)
      else st.(v := v[0 := Zeroed(v[0], st.values.Keys)])
  }

  function Added(x: real, factor: real, gain: nat): real {
    x + factor * gain as real
  }

  function SetPid(st: State, r: Report, factor: real): State {
    var gain := Increase(st.values, r);
    var stored := st.(values := Store(st.values, r));
    if gain == 0 then stored
    else if st.v == [] then stored.(fault := true)
    else stored.(v := SetProperty(st.v, r.name, Added(Number(st.v[0], r.name), factor, gain)))
  }

  lemma ZeroedNone(row: Row)
    ensures Zeroed(row, {}) == row
  {
  }

  lemma ZeroedOne(row: Row, done: set<string>, n: string)
    ensures Zeroed(row, done)[n := 0.0] == Zeroed(row, done + {n})
  {
  }

  lemma NoKeys(values: Values)
    ensures values == map[] <==> values.Keys == {}
  {
  }

  // ---------------------------------------------------------------- the class

  /** `pidRessource`. */
  class PidRessource {
    const history: Ressource
    const factor: real
    var values: Values

    constructor (size: nat, factor: real)
      ensures fresh(history) && history.v == [] && history.size == size && values == map[] && this.factor == factor
    {
      this.factor, values := factor, map[];
      history := new Ressource(size);
    }

    method ZeroAll(all: set<string>)
      requires all != {} ==> history.v != []
      modifies history
      ensures history.v == if all == {} then old(history.v) else old(history.v)[0 := Zeroed(old(history.v)[0], all)]
    {
      hide Zeroed;
      if all == {} {
        return;
      }
      ghost var v := history.v;
      var names := all;
      ghost var done: set<string> := {};
      ZeroedNone(v[0]);
      while names != {}
        invariant names + done == all && names !! done
        invariant history.v == v[0 := Zeroed(v[0], done)]
        decreases |names|
      {
        var n :| n in names;
        ZeroedOne(v[0], done, n);
        history.Set(n, 0.0);
        names := names - {n};
        done := done + {n};
      }
      assert done == all;
    }

    /** `nextValue`; once a value is known the history must keep at least one row. */
    method Tick(now: real)
      requires values != map[] ==> history.size > 0
      modifies history
      ensures State(history.v, values, false) == Next(State(old(history.v), values, false), history.size, now)
    {
      hide Zeroed;
      if values != map[] {
        history.Next(now);
        assert history.v != [];
      }
      NoKeys(values);
      ZeroAll(values.Keys);
    }

    /** The first row must be there when the report adds something. */
    method SetPidValue(name: string, pid: nat, value: nat)
      requires Increase(values, Report(name, pid, value)) > 0 ==> history.v != []
      modifies this, history
      ensures State(history.v, values, false)
           == SetPid(State(old(history.v), old(values), false), Report(name, pid, value), factor)
    {
      hide Added, Store;
      if name in values && pid in values[name] && values[name][pid] < value {
        history.Set(name, Added(Number(history.v[0], name), factor, value - values[name][pid]));
      }
      values := Store(values, Report(name, pid, value));
    }
  }

  // ---------------------------------------------------------------- runs

  /** A tick, and what is reported before the next one. */
  datatype Round = Round(now: real, reports: seq<Report>)

  function ReportAll(st: State, rs: seq<Report>, factor: real): State {
    if rs == [] then st else SetPid(ReportAll(st, rs[..|rs| - 1], factor), rs[|rs| - 1], factor)
  }

  function RunRound(st: State, round: Round, size: nat, factor: real): State {
    ReportAll(Next(st, size, round.now), round.reports, factor)
  }

  function Run(rounds: seq<Round>, size: nat, factor: real): State {
    if rounds == [] then State([], map[], false)
    else RunRound(Run(rounds[..|rounds| - 1], size, factor), rounds[|rounds| - 1], size, factor)
  }

  function StoreAll(values: Values, rs: seq<Report>): Values {
    if rs == [] then values else Store(StoreAll(values, rs[..|rs| - 1]), rs[|rs| - 1])
  }

  /** What a list of reports adds up to for one name. */
  function Gain(values: Values, rs: seq<Report>, name: string): nat {
    if rs == [] then 0
    else
      var before, r := rs[..|rs| - 1], rs[|rs| - 1];
      Gain(values, before, name) + (if r.name == name then Increase(StoreAll(values, before), r) else 0)
  }

  lemma {:induction false} ReportValues(st: State, rs: seq<Report>, factor: real)
    ensures ReportAll(st, rs, factor).values == StoreAll(st.values, rs)
    ensures |ReportAll(st, rs, factor).v| == |st.v|
  {
    hide Increase, Store;
    if rs != [] {
      ReportValues(st, rs[..|rs| - 1], factor);
    }
  }

  // ---------------------------------------------------------------- no fault

  /** Some report adds something to what an earlier one has left. */
  ghost predicate AddsWithin(values: Values, rs: seq<Report>) {
    exists j :: 0 <= j < |rs| && Increase(StoreAll(values, rs[..j]), rs[j]) > 0
  }

  lemma AddsLast(values: Values, rs: seq<Report>)
    requires rs != []
    ensures AddsWithin(values, rs) <==>
      AddsWithin(values, rs[..|rs| - 1]) || Increase(StoreAll(values, rs[..|rs| - 1]), rs[|rs| - 1]) > 0
  {
    hide Increase, StoreAll;
    var init, n := rs[..|rs| - 1], |rs| - 1;
    forall j | 0 <= j < n
      ensures init[..j] == rs[..j] && init[j] == rs[j]
    {
    }
    if AddsWithin(values, init) {
      var j :| 0 <= j < n && Increase(StoreAll(values, init[..j]), init[j]) > 0;
      assert Increase(StoreAll(values, rs[..j]), rs[j]) > 0;
    }
    if AddsWithin(values, rs) {
      var j :| 0 <= j < |rs| && Increase(StoreAll(values, rs[..j]), rs[j]) > 0;
      if j < n {
        assert Increase(StoreAll(values, init[..j]), init[j]) > 0;
      }
    }
  }

  lemma {:induction false} FaultOfReports(st: State, rs: seq<Report>, factor: real)
    ensures ReportAll(st, rs, factor).fault <==> st.fault || (st.v == [] && AddsWithin(st.values, rs))
  {
    hide Increase, Store, AddsWithin;
    if rs == [] {
      NothingAdds(st.values);
    } else {
      var init := rs[..|rs| - 1];
      FaultOfReports(st, init, factor);
      ReportValues(st, init, factor);
      AddsLast(st.values, rs);
    }
  }

  lemma NothingAdds(values: Values)
    ensures !AddsWithin(values, [])
  {
  }

  /** The first round with reports, or the number of rounds. */
  function FirstBusy(rounds: seq<Round>): (k: nat)
    ensures k <= |rounds|
    ensures k < |rounds| ==> rounds[k].reports != []
    ensures forall i :: 0 <= i < k ==> rounds[i].reports == []
  {
    if rounds == [] then 0
    else
      var k := FirstBusy(rounds[..|rounds| - 1]);
      if k < |rounds| - 1 then k
      else if rounds[|rounds| - 1].reports != [] then k
      else |rounds|
  }

  /** Before the first report there is neither a value nor a row; afterwards there is a value, and
      after the next tick a row. The history is used while empty exactly when, in the first round
      with reports, one report adds something to an earlier one. */
  lemma {:induction false} FaultsExactlyWhen(rounds: seq<Round>, size: nat, factor: real)
    requires size >= 1
    ensures var st, k := Run(rounds, size, factor), FirstBusy(rounds);
      && (st.fault <==> k < |rounds| && AddsWithin(map[], rounds[k].reports))
      && (k == |rounds| ==> st.v == [] && st.values == map[])
      && (k < |rounds| ==> st.values != map[] && (k + 1 < |rounds| ==> st.v != []))
  {
    hide AddsWithin, StoreAll, ReportAll, NextValue;
    if rounds != [] {
      var init, last := rounds[..|rounds| - 1], rounds[|rounds| - 1];
      FaultsExactlyWhen(init, size, factor);
      var before := Run(init, size, factor);
      var ticked := Next(before, size, last.now);
      NextHasRow(before, size, last.now);
      ReportValues(ticked, last.reports, factor);
      FaultOfReports(ticked, last.reports, factor);
      StoredSome(ticked.values, last.reports);
      NoReports(ticked, factor);
      NothingAdds(map[]);
      assert FirstBusy(init) < |init| ==> init[FirstBusy(init)] == rounds[FirstBusy(init)];
    }
  }

  lemma NoReports(st: State, factor: real)
    ensures ReportAll(st, [], factor) == st
  {
  }

  lemma NextHasRow(st: State, size: nat, now: real)
    requires size >= 1
    ensures var t := Next(st, size, now);
      && t.values == st.values && t.fault == st.fault
      && (st.values == map[] ==> t == st)
      && (st.values != map[] ==> t.v != [])
  {
    hide Zeroed;
  }

  lemma {:induction false} StoredSome(values: Values, rs: seq<Report>)
    ensures rs == [] ==> StoreAll(values, rs) == values
    ensures rs != [] || values != map[] ==> StoreAll(values, rs) != map[]
  {
    if rs != [] {
      StoredSome(values, rs[..|rs| - 1]);
      assert rs[|rs| - 1].name in StoreAll(values, rs);
    }
  }

  ghost predicate OncePerTick(rs: seq<Report>) {
    forall i, j :: 0 <= i < j < |rs| ==> rs[i].name != rs[j].name || rs[i].pid != rs[j].pid
  }

  /** What is known of a process that the reports do not mention. */
  lemma {:induction false} Unmentioned(values: Values, rs: seq<Report>, name: string, pid: nat)
    requires forall i :: 0 <= i < |rs| ==> rs[i].name != name || rs[i].pid != pid
    ensures var w := StoreAll(values, rs);
      && (name in w && pid in w[name] <==> name in values && pid in values[name])
      && (name in values && pid in values[name] ==> name in w && pid in w[name] && w[name][pid] == values[name][pid])
  {
    if rs != [] {
      Unmentioned(values, rs[..|rs| - 1], name, pid);
    }
  }

  /** Reported once per tick, a process adds what it has gained since the ticks before. */
  lemma IncreaseFromStart(values: Values, rs: seq<Report>, j: nat)
    requires OncePerTick(rs) && j < |rs|
    ensures Increase(StoreAll(values, rs[..j]), rs[j]) == Increase(values, rs[j])
  {
    hide StoreAll;
    Unmentioned(values, rs[..j], rs[j].name, rs[j].pid);
  }

  /** With one report per process and tick the history is never used while empty. */
  lemma NeverFaults(rounds: seq<Round>, size: nat, factor: real)
    requires size >= 1 && forall i :: 0 <= i < |rounds| ==> OncePerTick(rounds[i].reports)
    ensures !Run(rounds, size, factor).fault
  {
    hide Run, OncePerTick, StoreAll;
    FaultsExactlyWhen(rounds, size, factor);
    var k := FirstBusy(rounds);
    if k < |rounds| {
      var rs := rounds[k].reports;
      forall j | 0 <= j < |rs|
        ensures Increase(StoreAll(map[], rs[..j]), rs[j]) == 0
      {
        IncreaseFromStart(map[], rs, j);
      }
    }
  }

  // ---------------------------------------------------------------- what a row holds

  /** A row's number grows by `factor` times the gain of the reports, and other rows stay. */
  lemma {:induction false} RowGain(st: State, rs: seq<Report>, factor: real, name: string)
    requires st.v != []
    ensures var t := ReportAll(st, rs, factor);
      && t.v != [] && t.v[1..] == st.v[1..]
      && Number(t.v[0], name) == Added(Number(st.v[0], name), factor, Gain(st.values, rs, name))
  {
    hide Increase, Store, StoreAll, SetPid, Number, Added;
    if rs == [] {
      AddedTwice(Number(st.v[0], name), factor, 0, 0);
    } else {
      var init, r := rs[..|rs| - 1], rs[|rs| - 1];
      RowGain(st, init, factor, name);
      ReportValues(st, init, factor);
      var before := ReportAll(st, init, factor);
      OneReport(before, r, factor, name);
      AddedTwice(Number(st.v[0], name), factor, Gain(st.values, init, name), Increase(before.values, r));
    }
  }

  lemma OneReport(st: State, r: Report, factor: real, name: string)
    requires st.v != []
    ensures var t := SetPid(st, r, factor);
      && t.v != [] && t.v[1..] == st.v[1..]
      && Number(t.v[0], name) == if r.name == name then Added(Number(st.v[0], name), factor, Increase(st.values, r))
                                 else Number(st.v[0], name)
  {
    hide Increase, Store, Added;
    AddedTwice(Number(st.v[0], name), factor, 0, 0);
  }

  lemma AddedTwice(x: real, factor: real, a: nat, b: nat)
    ensures Added(Added(x, factor, a), factor, b) == Added(x, factor, a + b) && Added(x, factor, 0) == x
  {
    Distribute(factor, a, b);
  }

  lemma Distribute(factor: real, a: nat, b: nat)
    ensures factor * (a + b) as real == factor * a as real + factor * b as real
  {
    assert (a + b) as real == a as real + b as real;
  }

  /** The sum over the reports for `name` of what each process has gained since the ticks before. */
  function GainSinceStart(values: Values, rs: seq<Report>, name: string): nat {
    if rs == [] then 0
    else
      GainSinceStart(values, rs[..|rs| - 1], name) +
      (if rs[|rs| - 1].name == name then Increase(values, rs[|rs| - 1]) else 0)
  }

  lemma {:induction false} GainIsSinceStart(values: Values, rs: seq<Report>, name: string)
    requires OncePerTick(rs)
    ensures Gain(values, rs, name) == GainSinceStart(values, rs, name)
  {
    hide Increase, StoreAll;
    if rs != [] {
      GainIsSinceStart(values, rs[..|rs| - 1], name);
      IncreaseFromStart(values, rs, |rs| - 1);
    }
  }

  lemma ZeroedNumber(st: State, size: nat, now: real, name: string)
    requires size >= 1 && name in st.values
    ensures Next(st, size, now).v != [] && Number(Next(st, size, now).v[0], name) == 0.0
  {
    NextHasRow(st, size, now);
    var v := NextValue(st.v, size, now);
    assert Zeroed(v[0], st.values.Keys)[name] == 0.0;
  }

  /** After a round, the newest row's number for a name known before is `factor` times the sum, over
      the processes, of their positive increases since the ticks before. */
  lemma RowOfRound(st: State, round: Round, size: nat, factor: real, name: string)
    requires size >= 1 && name in st.values && OncePerTick(round.reports)
    ensures var t := RunRound(st, round, size, factor);
      t.v != [] && Number(t.v[0], name) == factor * GainSinceStart(st.values, round.reports, name) as real
  {
    hide ReportAll, NextValue, OncePerTick, Gain, GainSinceStart;
    var ticked := Next(st, size, round.now);
    NextHasRow(st, size, round.now);
    ZeroedNumber(st, size, round.now, name);
    RowGain(ticked, round.reports, factor, name);
    GainIsSinceStart(st.values, round.reports, name);
  }

  /** A name that was not known before the round gains nothing in it. */
  lemma {:induction false} NewNameGainsNothing(values: Values, rs: seq<Report>, name: string)
    requires name !in values
    ensures GainSinceStart(values, rs, name) == 0
  {
    if rs != [] {
      NewNameGainsNothing(values, rs[..|rs| - 1], name);
    }
  }

  // ---------------------------------------------------------------- telescoping

  function AllReports(rounds: seq<Round>): seq<Report> {
    if rounds == [] then [] else AllReports(rounds[..|rounds| - 1]) + rounds[|rounds| - 1].reports
  }

  /** The numbers the rows of a run held for `name` when their round was over, added up; the rows of
      rounds before the name was known hold none. */
  function RowSum(rounds: seq<Round>, size: nat, factor: real, name: string): real {
    if rounds == [] then 0.0
    else
      var init := rounds[..|rounds| - 1];
      var t := Run(rounds, size, factor);
      RowSum(init, size, factor, name) +
      (if name in Run(init, size, factor).values && t.v != [] then Number(t.v[0], name) else 0.0)
  }

  /** The first and the last value of every process that reported for `name`. */
  function Firsts(rs: seq<Report>, name: string): map<nat, nat> {
    if rs == [] then map[]
    else
      var m, r := Firsts(rs[..|rs| - 1], name), rs[|rs| - 1];
      if r.name == name && r.pid !in m then m[r.pid := r.value] else m
  }

  function Lasts(rs: seq<Report>, name: string): map<nat, nat> {
    if rs == [] then map[]
    else
      var m, r := Lasts(rs[..|rs| - 1], name), rs[|rs| - 1];
      if r.name == name then m[r.pid := r.value] else m
  }

  function Of(values: Values, name: string): map<nat, nat> {
    if name in values then values[name] else map[]
  }

  lemma {:induction false} StoredIsLasts(rs: seq<Report>, name: string)
    ensures Of(StoreAll(map[], rs), name) == Lasts(rs, name)
    ensures Lasts(rs, name).Keys == Firsts(rs, name).Keys
  {
    if rs != [] {
      StoredIsLasts(rs[..|rs| - 1], name);
    }
  }

  /** The sum of a map's values. */
  ghost function Sum(m: map<nat, nat>): nat
    decreases |m|
  {
    if m == map[] then 0
    else
      var k :| k in m;
      Smaller(m, k);
      m[k] + Sum(m - {k})
  }

  lemma Smaller(m: map<nat, nat>, k: nat)
    requires k in m
    ensures |m - {k}| < |m|
  {
    assert (m - {k}).Keys == m.Keys - {k};
    assert |m.Keys - {k}| < |m.Keys|;
  }

  lemma {:induction false} SumWithout(m: map<nat, nat>, k: nat)
    requires k in m
    ensures Sum(m) == m[k] + Sum(m - {k})
    decreases |m|
  {
    var j :| j in m && Sum(m) == m[j] + Sum(m - {j});
    if j != k {
      Smaller(m, j);
      Smaller(m, k);
      SumWithout(m - {j}, k);
      SumWithout(m - {k}, j);
      assert m - {j} - {k} == m - {k} - {j};
    }
  }

  lemma SumUpdate(m: map<nat, nat>, k: nat, x: nat)
    ensures Sum(m[k := x]) + (if k in m then m[k] else 0) == Sum(m) + x
  {
    SumWithout(m[k := x], k);
    if k in m {
      SumWithout(m, k);
      assert m[k := x] - {k} == m - {k};
    } else {
      assert m[k := x] - {k} == m;
    }
  }

  /** No process's counter for `name` ever goes back. */
  ghost predicate NonDecreasing(rs: seq<Report>, name: string) {
    rs != [] ==>
      var init, r := rs[..|rs| - 1], rs[|rs| - 1];
      NonDecreasing(init, name) && (r.name == name && r.pid in Lasts(init, name) ==> Lasts(init, name)[r.pid] <= r.value)
  }

  lemma {:induction false} GainTelescopes(rs: seq<Report>, name: string)
    requires NonDecreasing(rs, name)
    ensures Sum(Firsts(rs, name)) + Gain(map[], rs, name) == Sum(Lasts(rs, name))
  {
    hide StoreAll, Sum;
    if rs != [] {
      var init, r := rs[..|rs| - 1], rs[|rs| - 1];
      GainTelescopes(init, name);
      StoredIsLasts(init, name);
      if r.name == name {
        SumUpdate(Lasts(init, name), r.pid, r.value);
        SumUpdate(Firsts(init, name), r.pid, r.value);
      }
    }
  }

  lemma {:induction false} StoreOn(values: Values, a: seq<Report>, b: seq<Report>)
    ensures StoreAll(values, a + b) == StoreAll(StoreAll(values, a), b)
  {
    if b == [] {
      assert a + b == a;
    } else {
      assert (a + b)[..|a + b| - 1] == a + b[..|b| - 1];
      StoreOn(values, a, b[..|b| - 1]);
    }
  }

  lemma {:induction false} GainOn(values: Values, a: seq<Report>, b: seq<Report>, name: string)
    ensures Gain(values, a + b, name) == Gain(values, a, name) + Gain(StoreAll(values, a), b, name)
  {
    hide Increase, StoreAll;
    if b == [] {
      assert a + b == a;
    } else {
      assert (a + b)[..|a + b| - 1] == a + b[..|b| - 1];
      GainOn(values, a, b[..|b| - 1], name);
      StoreOn(values, a, b[..|b| - 1]);
    }
  }

  lemma {:induction false} RunValues(rounds: seq<Round>, size: nat, factor: real)
    ensures Run(rounds, size, factor).values == StoreAll(map[], AllReports(rounds))
  {
    hide ReportAll, StoreAll, NextValue, Zeroed;
    if rounds == [] {
      StoredSome(map[], []);
    } else {
      var init, last := rounds[..|rounds| - 1], rounds[|rounds| - 1];
      RunValues(init, size, factor);
      ReportValues(Next(Run(init, size, factor), size, last.now), last.reports, factor);
      StoreOn(map[], AllReports(init), last.reports);
    }
  }

  /** What the rows of a run have held for a name adds up to `factor` times the whole gain. */
  lemma {:induction false} RowsAddUp(rounds: seq<Round>, size: nat, factor: real, name: string)
    requires size >= 1 && forall i :: 0 <= i < |rounds| ==> OncePerTick(rounds[i].reports)
    ensures RowSum(rounds, size, factor, name) == factor * Gain(map[], AllReports(rounds), name) as real
  {
    hide OncePerTick, StoreAll, RunRound, Gain, GainSinceStart, Number;
    if rounds == [] {
      NoGain(name);
    } else {
      var init, last := rounds[..|rounds| - 1], rounds[|rounds| - 1];
      var st := Run(init, size, factor);
      RowsAddUp(init, size, factor, name);
      RunValues(init, size, factor);
      GainOn(map[], AllReports(init), last.reports, name);
      GainIsSinceStart(st.values, last.reports, name);
      if name in st.values {
        RowOfRound(st, last, size, factor, name);
      } else {
        NewNameGainsNothing(st.values, last.reports, name);
      }
      Distribute(factor, Gain(map[], AllReports(init), name), Gain(st.values, last.reports, name));
    }
  }

  lemma NoGain(name: string)
    ensures Gain(map[], [], name) == 0
  {
  }

  /** For counters that never go back, the numbers of a name over a whole run add up to `factor`
      times the sum, over the processes, of the last value less the first. */
  lemma RunTelescopes(rounds: seq<Round>, size: nat, factor: real, name: string)
    requires size >= 1 && forall i :: 0 <= i < |rounds| ==> OncePerTick(rounds[i].reports)
    requires NonDecreasing(AllReports(rounds), name)
    ensures var rs := AllReports(rounds);
      RowSum(rounds, size, factor, name) == factor * (Sum(Lasts(rs, name)) - Sum(Firsts(rs, name))) as real
  {
    hide RowSum, Gain, Sum, Lasts, Firsts, OncePerTick;
    RowsAddUp(rounds, size, factor, name);
    GainTelescopes(AllReports(rounds), name);
  }

  // ---------------------------------------------------------------- the rows of a run

  /** The rows that the ticks of a run have made, oldest first, as each stood when its round was over.
      A tick makes a row once a value is known. */
  function Made(rounds: seq<Round>, size: nat, factor: real): seq<Row> {
    if rounds == [] then []
    else
      var init := rounds[..|rounds| - 1];
      var t := Run(rounds, size, factor);
      Made(init, size, factor) + (if Run(init, size, factor).values != map[] && t.v != [] then [t.v[0]] else [])
  }

  lemma FirstOfNewer(row: Row, v: seq<Row>, size: nat)
    requires size >= 1
    ensures FirstRows([row] + v, size) == [row] + FirstRows(v, size - 1)
    ensures FirstRows(FirstRows(v, size), size - 1) == FirstRows(v, size - 1)
  {
  }

  lemma NextPrepends(st: State, size: nat, now: real)
    requires size >= 1 && st.values != map[]
    ensures var v := Next(st, size, now).v; v != [] && v[1..] == FirstRows(st.v, size - 1)
  {
    hide Zeroed;
    var row := (if st.v == [] then map[] else st.v[0])[TIMESTAMP := now];
    FirstOfNewer(row, st.v, size);
  }

  /** A round puts one row in front of the newest ones before, or none if no value was known. */
  lemma RoundPrepends(st: State, round: Round, size: nat, factor: real)
    requires size >= 1 && (st.values == map[] ==> st.v == [])
    ensures var v := RunRound(st, round, size, factor).v;
      if st.values == map[] then v == [] else v != [] && v == [v[0]] + FirstRows(st.v, size - 1)
  {
    hide ReportAll, Next, FirstRows;
    var ticked := Next(st, size, round.now);
    NextHasRow(st, size, round.now);
    ReportValues(ticked, round.reports, factor);
    if st.values != map[] {
      NextPrepends(st, size, round.now);
      RowGain(ticked, round.reports, factor, "");
      var v := RunRound(st, round, size, factor).v;
      assert v == [v[0]] + v[1..];
    }
  }

  /** After every run the history holds the last `size` of the rows that the ticks have made, newest
      first: the row `j` places back is the one that stood at the front when its round was over. */
  lemma {:induction false} HistoryIsKept(rounds: seq<Round>, size: nat, factor: real)
    requires size >= 1
    ensures Run(rounds, size, factor).v == FirstRows(Reverse(Made(rounds, size, factor)), size)
    ensures var k := FirstBusy(rounds); |Made(rounds, size, factor)| == if k < |rounds| then |rounds| - k - 1 else 0
  {
    hide RunRound, FirstRows, Reverse;
    FaultsExactlyWhen(rounds, size, factor);
    if rounds == [] {
      NoRows(size);
    } else {
      var init, last := rounds[..|rounds| - 1], rounds[|rounds| - 1];
      var st, made := Run(init, size, factor), Made(init, size, factor);
      FaultsExactlyWhen(init, size, factor);
      HistoryIsKept(init, size, factor);
      RoundPrepends(st, last, size, factor);
      var v := Run(rounds, size, factor).v;
      if st.values != map[] {
        ReverseAppend(made, v[0]);
        FirstOfNewer(v[0], Reverse(made), size);
      } else {
        assert made == [] && Made(rounds, size, factor) == made + [];
      }
    }
  }

  lemma NoRows(size: nat)
    ensures FirstRows(Reverse([]), size) == []
  {
  }

  ghost predicate Untimed(rs: seq<Report>) {
    forall i :: 0 <= i < |rs| ==> rs[i].name != TIMESTAMP
  }

  lemma {:induction false} ReportsKeepTime(st: State, rs: seq<Report>, factor: real)
    requires st.v != [] && Untimed(rs)
    ensures var v := ReportAll(st, rs, factor).v;
      v != [] && (TIMESTAMP in st.v[0] ==> TIMESTAMP in v[0] && v[0][TIMESTAMP] == st.v[0][TIMESTAMP])
  {
    hide Increase, Store, Added, Number;
    if rs != [] {
      ReportsKeepTime(st, rs[..|rs| - 1], factor);
    }
  }

  lemma {:induction false} StoredNames(values: Values, rs: seq<Report>)
    requires Untimed(rs) && TIMESTAMP !in values
    ensures TIMESTAMP !in StoreAll(values, rs)
  {
    if rs != [] {
      StoredNames(values, rs[..|rs| - 1]);
    }
  }

  lemma {:induction false} NamesOfRun(rounds: seq<Round>, size: nat, factor: real)
    requires forall i :: 0 <= i < |rounds| ==> Untimed(rounds[i].reports)
    ensures TIMESTAMP !in Run(rounds, size, factor).values
  {
    hide Untimed, ReportAll, StoreAll, NextValue, Zeroed;
    if rounds != [] {
      var init, last := rounds[..|rounds| - 1], rounds[|rounds| - 1];
      NamesOfRun(init, size, factor);
      var ticked := Next(Run(init, size, factor), size, last.now);
      ReportValues(ticked, last.reports, factor);
      StoredNames(ticked.values, last.reports);
    }
  }

  lemma TickIsTimed(st: State, size: nat, now: real)
    requires size >= 1 && st.values != map[] && TIMESTAMP !in st.values
    ensures var v := Next(st, size, now).v; v != [] && TIMESTAMP in v[0] && v[0][TIMESTAMP] == now
  {
  }

  /** The row at the front carries the time of the last tick. */
  lemma FrontIsTimed(rounds: seq<Round>, size: nat, factor: real)
    requires size >= 1 && forall i :: 0 <= i < |rounds| ==> Untimed(rounds[i].reports)
    requires Run(rounds, size, factor).v != []
    ensures rounds != [] && var row := Run(rounds, size, factor).v[0];
      TIMESTAMP in row && row[TIMESTAMP] == rounds[|rounds| - 1].now
  {
    hide Untimed, ReportAll, Next;
    var init, last := rounds[..|rounds| - 1], rounds[|rounds| - 1];
    var st := Run(init, size, factor);
    FaultsExactlyWhen(init, size, factor);
    NamesOfRun(init, size, factor);
    NextHasRow(st, size, last.now);
    ReportValues(Next(st, size, last.now), last.reports, factor);
    if st.values != map[] {
      TickIsTimed(st, size, last.now);
      ReportsKeepTime(Next(st, size, last.now), last.reports, factor);
    }
  }
}
