/** The bounded history of a resource, newest row first, against the unbounded log of its ticks.
    Values are numbers, taken as reals. */
module History {
  import opened Sequences

  type Row = map<string, real>

  const TIMESTAMP := "timestamp"

  function FirstRows(v: seq<Row>, size: nat): seq<Row> {
    if |v| > size then v[..size] else v
  }

  /** `nextValue`: a new row at the front starts as a copy of the last one. */
  function NextValue(v: seq<Row>, size: nat, now: real): seq<Row> {
    var row := if v == [] then map[] else v[0];
    FirstRows([row[TIMESTAMP := now]] + v, size)
  }

  function SetProperty(v: seq<Row>, name: string, value: real): seq<Row>
    requires v != []
  {
    v[0 := v[0][name := value]]
  }

  predicate Recent(row: Row, since: real) {
    TIMESTAMP in row && row[TIMESTAMP] >= since
  }

  /** The rows from `since` on, oldest first. */
  function Since(v: seq<Row>, since: real): seq<Row> {
    if v == [] then [] else Since(v[1..], since) + (if Recent(v[0], since) then [v[0]] else [])
  }

  /** The textual form of a list of rows, `show` being the form of one. */
  function Listing(rows: seq<Row>, show: Row -> string): string {
    if rows == [] then ""
    else if |rows| == 1 then show(rows[0])
    else Listing(rows[..|rows| - 1], show) + ",\n" + show(rows[|rows| - 1])
  }

  lemma SinceFrom(v: seq<Row>, i: nat, since: real)
    requires i < |v|
    ensures Since(v[i..], since) == Since(v[i + 1..], since) + (if Recent(v[i], since) then [v[i]] else [])
  {
    assert v[i..][1..] == v[i + 1..];
  }

  lemma ListingAppend(rows: seq<Row>, row: Row, show: Row -> string)
    ensures Listing(rows + [row], show) == (if rows == [] then "" else Listing(rows, show) + ",\n") + show(row)
  {
    assert (rows + [row])[..|rows|] == rows;
    assert "" + show(row) == show(row);
  }

  class Ressource {
    var v: seq<Row>
    const size: nat

    constructor (size: nat)
      ensures v == [] && this.size == size
    {
      v, this.size := [], size;
    }

    method Next(now: real)
      modifies this
      ensures v == NextValue(old(v), size, now)
    {
      if v == [] {
        v := [map[]] + v;
      } else {
        v := [v[0]] + v;
      }
      v := v[0 := v[0][TIMESTAMP := now]];
      if |v| > size {
        v := v[..size];
      }
    }

    method Set(name: string, value: real)
      requires v != []
      modifies this
      ensures v == SetProperty(old(v), name, value)
    {
      v := v[0 := v[0][name := value]];
    }

    /** `getHistory` into a JSON array. */
    method GetRows(since: real) returns (out: seq<Row>)
      ensures out == Since(v, since)
    {
      out := [];
      var i := |v|;
      assert v[i..] == [];
      while i > 0
        invariant 0 <= i <= |v| && out == Since(v[i..], since)
      {
        i := i - 1;
        SinceFrom(v, i, since);
        if Recent(v[i], since) {
          out := out + [v[i]];
        }
      }
      assert v[0..] == v;
    }

    /** `getHistory` as text: the listing of the same rows. */
    method GetText(since: real, show: Row -> string) returns (text: string)
      ensures text == "[\n" + Listing(Since(v, since), show) + "\n]\n"
    {
      hide Listing, Recent, Since;
      var splitted := true;
      ghost var rows: seq<Row> := [];
      text := "[\n";
      var i := |v|;
      Nothing(v, i, since, show);
      assert text + "" == text;
      while i > 0
        invariant 0 <= i <= |v| && rows == Since(v[i..], since) && (splitted <==> rows == [])
        invariant text == "[\n" + Listing(rows, show)
      {
        i := i - 1;
        SinceFrom(v, i, since);
        if Recent(v[i], since) {
          ListingAppend(rows, v[i], show);
          if !splitted {
            text := text + ",\n";
          }
          text := text + show(v[i]);
          rows := rows + [v[i]];
          splitted := false;
        }
      }
      assert v[0..] == v;
      text := text + "\n]\n";
    }
  }

  lemma Nothing(v: seq<Row>, i: nat, since: real, show: Row -> string)
    requires i == |v|
    ensures Since(v[i..], since) == [] && Listing([], show) == ""
  {
  }

  // ---------------------------------------------------------------- the log

  datatype Op = Tick(now: real) | Set(name: string, value: real)

  /** Setting a property before the first tick has no row to work on: the code must not do it. */
  ghost predicate Legal(ops: seq<Op>) {
    ops != [] ==> ops[0].Tick?
  }

  function Held(ops: seq<Op>, size: nat): seq<Row> {
    if ops == [] then []
    else
      var v := Held(ops[..|ops| - 1], size);
      match ops[|ops| - 1]
      case Tick(now) => NextValue(v, size, now)
      case Set(name, value) => if v == [] then [] else SetProperty(v, name, value)
  }

  /** Every tick's row, oldest first: what was known before, then what the tick has set. */
  function Log(ops: seq<Op>): seq<Row> {
    if ops == [] then []
    else
      var log := Log(ops[..|ops| - 1]);
      match ops[|ops| - 1]
      case Tick(now) => log + [(if log == [] then map[] else log[|log| - 1])[TIMESTAMP := now]]
      case Set(name, value) => if log == [] then [] else log[|log| - 1 := log[|log| - 1][name := value]]
  }

  function Reverse(rows: seq<Row>): (r: seq<Row>)
    ensures |r| == |rows|
  {
    if rows == [] then [] else [rows[|rows| - 1]] + Reverse(rows[..|rows| - 1])
  }

  lemma {:induction false} ReverseAt(rows: seq<Row>, i: nat)
    requires i < |rows|
    ensures Reverse(rows)[i] == rows[|rows| - 1 - i]
  {
    if i > 0 {
      ReverseAt(rows[..|rows| - 1], i - 1);
    }
  }

  lemma ReverseAppend(rows: seq<Row>, row: Row)
    ensures Reverse(rows + [row]) == [row] + Reverse(rows)
  {
    assert (rows + [row])[..|rows|] == rows;
  }

  lemma ReverseSet(rows: seq<Row>, row: Row)
    requires rows != []
    ensures Reverse(rows[|rows| - 1 := row]) == Reverse(rows)[0 := row]
  {
    hide Reverse;
    var init, last := rows[..|rows| - 1], rows[|rows| - 1];
    assert rows == init + [last] && rows[|rows| - 1 := row] == init + [row];
    ReverseAppend(init, last);
    ReverseAppend(init, row);
    HeadSet(last, row, Reverse(init));
  }

  lemma HeadSet(last: Row, row: Row, rest: seq<Row>)
    ensures ([last] + rest)[0 := row] == [row] + rest
  {
  }

  lemma FirstOfMore(row: Row, all: seq<Row>, size: nat)
    ensures FirstRows([row] + FirstRows(all, size), size) == FirstRows([row] + all, size)
  {
  }

  /** The history holds the last `size` rows of the log, newest first, all along every run. */
  lemma {:induction false} HistoryRefinesLog(ops: seq<Op>, size: nat)
    requires size >= 1 && Legal(ops)
    ensures Held(ops, size) == FirstRows(Reverse(Log(ops)), size)
    ensures ops != [] ==> Held(ops, size) != []
  {
    hide Reverse;
    if ops != [] {
      var before := ops[..|ops| - 1];
      var log := Log(before);
      HistoryRefinesLog(before, size);
      if log != [] {
        ReverseAt(log, 0);
      }
      match ops[|ops| - 1]
      case Tick(now) =>
        var row := (if log == [] then map[] else log[|log| - 1])[TIMESTAMP := now];
        ReverseAppend(log, row);
        FirstOfMore(row, Reverse(log), size);
      case Set(name, value) =>
        ReverseSet(log, log[|log| - 1][name := value]);
    }
  }

  // ---------------------------------------------------------------- what a row of the log holds

  datatype Known = Unknown | Value(value: real)

  /** The value a property was set to last. */
  function LastSet(ops: seq<Op>, name: string): Known {
    if ops == [] then Unknown
    else if ops[|ops| - 1].Set? && ops[|ops| - 1].name == name then Value(ops[|ops| - 1].value)
    else LastSet(ops[..|ops| - 1], name)
  }

  function LastTick(ops: seq<Op>): Known {
    if ops == [] then Unknown
    else if ops[|ops| - 1].Tick? then Value(ops[|ops| - 1].now)
    else LastTick(ops[..|ops| - 1])
  }

  function Lookup(row: Row, name: string): Known {
    if name in row then Value(row[name]) else Unknown
  }

  /** The newest row holds for every property the value it was set to last, however many ticks ago,
      and the time of the last tick. */
  lemma {:induction false} NewestRow(ops: seq<Op>, name: string)
    requires Legal(ops) && ops != [] && name != TIMESTAMP
    ensures var log := Log(ops);
      && log != [] && Lookup(log[|log| - 1], name) == LastSet(ops, name)
      && ((forall i :: 0 <= i < |ops| && ops[i].Set? ==> ops[i].name != TIMESTAMP) ==>
            Lookup(log[|log| - 1], TIMESTAMP) == LastTick(ops))
  {
    var before := ops[..|ops| - 1];
    if before != [] {
      NewestRow(before, name);
    }
  }

  /** An operation changes only the newest row, or puts a new one behind it. */
  lemma LogChangesLast(ops: seq<Op>)
    requires Legal(ops) && |ops| >= 2
    ensures var before, after := Log(ops[..|ops| - 1]), Log(ops);
      if ops[|ops| - 1].Tick? then |after| == |before| + 1 && after[..|before|] == before
      else |after| == |before| && before != [] && after[..|after| - 1] == before[..|before| - 1]
  {
    NewestRow(ops[..|ops| - 1], "");
  }

  // ---------------------------------------------------------------- asking for history

  function Filter(log: seq<Row>, since: real): seq<Row> {
    if log == [] then []
    else Filter(log[..|log| - 1], since) + (if Recent(log[|log| - 1], since) then [log[|log| - 1]] else [])
  }

  lemma {:induction false} SinceAppend(a: seq<Row>, row: Row, since: real)
    ensures Since([row] + a, since) == Since(a, since) + (if Recent(row, since) then [row] else [])
  {
    assert ([row] + a)[1..] == a;
  }

  /** Reading a newest-first list backwards: the recent rows in log order. */
  lemma {:induction false} SinceReversed(log: seq<Row>, since: real)
    ensures Since(Reverse(log), since) == Filter(log, since)
  {
    if log != [] {
      SinceReversed(log[..|log| - 1], since);
      SinceAppend(Reverse(log[..|log| - 1]), log[|log| - 1], since);
    }
  }

  lemma FirstOne(row: Row, all: seq<Row>, size: nat)
    requires size >= 1
    ensures FirstRows([row] + all, size) == [row] + FirstRows(all, size - 1)
  {
  }

  /** The last `size` rows. */
  function Tail(log: seq<Row>, size: nat): seq<Row> {
    if |log| > size then log[|log| - size..] else log
  }

  lemma TailAppend(log: seq<Row>, row: Row, size: nat)
    requires size >= 1
    ensures Tail(log + [row], size) == Tail(log, size - 1) + [row]
  {
  }

  lemma {:induction false} FirstReversed(log: seq<Row>, size: nat)
    ensures FirstRows(Reverse(log), size) == Reverse(Tail(log, size))
  {
    hide FirstRows, Reverse, Tail;
    if size == 0 || log == [] {
      NothingKept(log, size);
    } else {
      var init, last := log[..|log| - 1], log[|log| - 1];
      assert log == init + [last];
      FirstReversed(init, size - 1);
      TailAppend(init, last, size);
      ReverseAppend(init, last);
      ReverseAppend(Tail(init, size - 1), last);
      FirstOne(last, Reverse(init), size);
    }
  }

  lemma NothingKept(log: seq<Row>, size: nat)
    requires size == 0 || log == []
    ensures FirstRows(Reverse(log), size) == [] && Reverse(Tail(log, size)) == []
  {
    assert Tail(log, size) == [];
  }

  /** What either form of `getHistory` gives: of the last `size` rows of the log, in log order,
      those whose timestamp is at or after `since`. */
  lemma HistoryInLogOrder(ops: seq<Op>, size: nat, since: real)
    requires size >= 1 && Legal(ops)
    ensures Since(Held(ops, size), since) == Filter(Tail(Log(ops), size), since)
  {
    hide Held, Log, Reverse, Since, Filter, FirstRows, Tail;
    HistoryRefinesLog(ops, size);
    FirstReversed(Log(ops), size);
    SinceReversed(Tail(Log(ops), size), since);
  }

  // ---------------------------------------------------------------- polling

  ghost predicate Increasing(log: seq<Row>) {
    && (forall i :: 0 <= i < |log| ==> TIMESTAMP in log[i])
    && forall i, j :: 0 <= i < j < |log| ==> log[i][TIMESTAMP] < log[j][TIMESTAMP]
  }

  lemma {:induction false} FilterNone(log: seq<Row>, since: real)
    requires forall i :: 0 <= i < |log| ==> !Recent(log[i], since)
    ensures Filter(log, since) == []
  {
    if log != [] {
      FilterNone(log[..|log| - 1], since);
    }
  }

  /** In a log with increasing timestamps, asking from the time of row `k` gives that row and all later ones. */
  lemma {:induction false} FilterSuffix(log: seq<Row>, k: nat, since: real)
    requires Increasing(log) && k <= |log|
    requires forall i :: 0 <= i < k ==> log[i][TIMESTAMP] < since
    requires k < |log| ==> log[k][TIMESTAMP] >= since
    ensures Filter(log, since) == log[k..]
  {
    if k == |log| {
      FilterNone(log, since);
    } else {
      var n := |log| - 1;
      FilterSuffix(log[..n], k, since);
      assert log[k..] == log[..n][k..] + [log[n]];
    }
  }

  /** A client that has seen the first `n` rows and asks from the time of the last of them gets, when
      at most `size` rows have been added, every one of them; with fewer it gets the row it knew
      once more, in its final form, and with `size` of them exactly the new ones. With more, the
      oldest of them are lost. */
  lemma PollAnswer(log: seq<Row>, n: nat, size: nat)
    requires size >= 1 && Increasing(log) && 1 <= n <= |log|
    ensures var added := |log| - n;
      Since(FirstRows(Reverse(log), size), log[n - 1][TIMESTAMP])
        == if added < size then log[n - 1..] else log[|log| - size..]
  {
    hide Reverse, Since, Filter, FirstRows, Increasing;
    HasTimes(log);
    var k := if |log| > size then |log| - size else 0;
    FirstReversed(log, size);
    assert Tail(log, size) == log[k..];
    SinceReversed(log[k..], log[n - 1][TIMESTAMP]);
    KeptSuffix(log, n, k);
  }

  lemma KeptSuffix(log: seq<Row>, n: nat, k: nat)
    requires Increasing(log) && 1 <= n <= |log| && k <= |log|
    ensures Filter(log[k..], log[n - 1][TIMESTAMP]) == log[if n - 1 >= k then n - 1 else k..]
  {
    hide Filter, Increasing;
    var from := if n - 1 >= k then n - 1 - k else 0;
    PartIncreasing(log, k);
    OlderRows(log, n, k);
    FilterSuffix(log[k..], from, log[n - 1][TIMESTAMP]);
    assert log[k..][from..] == log[k + from..];
  }

  lemma PartIncreasing(log: seq<Row>, k: nat)
    requires Increasing(log) && k <= |log|
    ensures Increasing(log[k..]) && Increasing(log[..k])
    ensures forall i :: 0 <= i < |log| ==> TIMESTAMP in log[i]
  {
  }

  lemma OlderRows(log: seq<Row>, n: nat, k: nat)
    requires Increasing(log) && 1 <= n <= |log| && k <= |log|
    ensures var part, since, from := log[k..], log[n - 1][TIMESTAMP], if n - 1 >= k then n - 1 - k else 0;
      && (forall i :: 0 <= i < from ==> TIMESTAMP in part[i] && part[i][TIMESTAMP] < since)
      && (from < |part| ==> TIMESTAMP in part[from] && part[from][TIMESTAMP] >= since)
  {
  }

  // ---------------------------------------------------------------- a whole run of polls

  function Times(log: seq<Row>): (r: seq<real>)
    requires forall i :: 0 <= i < |log| ==> TIMESTAMP in log[i]
    ensures |r| == |log| && forall i :: 0 <= i < |r| ==> r[i] == log[i][TIMESTAMP]
  {
    seq(|log|, i requires 0 <= i < |log| => log[i][TIMESTAMP])
  }

  /** The timestamps of the rows a client did not know yet. */
  function News(seen: seq<real>, answer: seq<Row>): seq<real> {
    if answer == [] then []
    else
      var row := answer[|answer| - 1];
      News(seen, answer[..|answer| - 1]) +
      (if TIMESTAMP in row && (seen == [] || row[TIMESTAMP] > seen[|seen| - 1]) then [row[TIMESTAMP]] else [])
  }

  function Flatten(batches: seq<seq<Op>>): seq<Op> {
    if batches == [] then [] else Flatten(batches[..|batches| - 1]) + batches[|batches| - 1]
  }

  /** The timestamps a client collects that polls after every batch of operations, from the last
      timestamp it has seen, and from `start` at first. */
  function Collected(batches: seq<seq<Op>>, size: nat, start: real): seq<real> {
    if batches == [] then []
    else
      var seen := Collected(batches[..|batches| - 1], size, start);
      var since := if seen == [] then start else seen[|seen| - 1];
      seen + News(seen, Since(Held(Flatten(batches), size), since))
  }

  function Ticks(ops: seq<Op>): nat {
    if ops == [] then 0 else Ticks(ops[..|ops| - 1]) + (if ops[|ops| - 1].Tick? then 1 else 0)
  }

  ghost predicate TimesKept(ops: seq<Op>) {
    forall i :: 0 <= i < |ops| && ops[i].Set? ==> ops[i].name != TIMESTAMP
  }

  /** Later operations leave the timestamps of earlier rows alone. */
  lemma {:induction false} TimesArePrefix(a: seq<Op>, b: seq<Op>)
    requires TimesKept(a + b) && Increasing(Log(a + b)) && Legal(a + b)
    ensures Increasing(Log(a)) && |Log(a + b)| == |Log(a)| + Ticks(b)
    ensures Times(Log(a)) <= Times(Log(a + b))
  {
    if b == [] {
      assert a + b == a;
    } else {
      var init, op := b[..|b| - 1], b[|b| - 1];
      var all := a + b;
      assert all[..|all| - 1] == a + init && all[|all| - 1] == op;
      LastTimesKept(all);
      TimesArePrefix(a, init);
      LastIsPrefix(all);
    }
  }

  lemma LogStep(ops: seq<Op>)
    requires ops != [] && TimesKept(ops)
    ensures var before, after := Log(ops[..|ops| - 1]), Log(ops);
      && (Legal(ops) ==> |after| == |before| + (if ops[|ops| - 1].Tick? then 1 else 0))
      && |before| <= |after|
      && forall i :: 0 <= i < |before| ==>
           TIMESTAMP in before[i] && TIMESTAMP in after[i] && before[i][TIMESTAMP] == after[i][TIMESTAMP]
  {
    hide TimesKept;
    LogHasTimes(ops[..|ops| - 1]);
    LastKept(ops);
  }

  lemma LastKept(ops: seq<Op>)
    requires ops != [] && TimesKept(ops)
    ensures ops[|ops| - 1].Set? ==> ops[|ops| - 1].name != TIMESTAMP
  {
  }

  lemma LastTimesKept(ops: seq<Op>)
    requires ops != [] && TimesKept(ops) && Increasing(Log(ops)) && Legal(ops)
    ensures TimesKept(ops[..|ops| - 1]) && Increasing(Log(ops[..|ops| - 1])) && Legal(ops[..|ops| - 1])
  {
    hide Log;
    LogStep(ops);
  }

  lemma {:induction false} LogHasTimes(ops: seq<Op>)
    ensures forall i :: 0 <= i < |Log(ops)| ==> TIMESTAMP in Log(ops)[i]
  {
    if ops != [] {
      LogHasTimes(ops[..|ops| - 1]);
    }
  }

  lemma LastIsPrefix(ops: seq<Op>)
    requires ops != [] && TimesKept(ops) && Increasing(Log(ops)) && Increasing(Log(ops[..|ops| - 1])) && Legal(ops)
    ensures var before := Log(ops[..|ops| - 1]);
      |Log(ops)| == |before| + (if ops[|ops| - 1].Tick? then 1 else 0) && Times(before) <= Times(Log(ops))
  {
    hide Log, TimesKept;
    LogStep(ops);
  }

  lemma {:induction false} NewsOf(seen: seq<real>, log: seq<Row>, k: nat, n: nat)
    requires Increasing(log) && k <= n <= |log| && |seen| == n && seen <= Times(log)
    ensures News(seen, log[k..]) == Times(log)[n..]
    decreases |log|
  {
    hide Increasing, News;
    var m := |log| - 1;
    if |log| == n {
      NothingNewer(log, k);
      HasTimes(log);
      assert seen == Times(log);
      NoNews(seen, log[k..]);
    } else {
      var init := log[..m];
      PartIncreasing(log, m);
      assert Times(init) == Times(log)[..m];
      NewsOf(seen, init, k, n);
      assert log[k..] == init[k..] + [log[m]];
      LastIsNews(seen, log, init[k..]);
      assert Times(log)[n..] == Times(init)[n..] + [log[m][TIMESTAMP]];
    }
  }

  lemma NothingNewer(log: seq<Row>, k: nat)
    requires Increasing(log) && k <= |log|
    ensures forall i :: 0 <= i < |log[k..]| ==> TIMESTAMP in log[k..][i] && log[k..][i][TIMESTAMP] <= log[|log| - 1][TIMESTAMP]
  {
  }

  lemma LastIsNews(seen: seq<real>, log: seq<Row>, part: seq<Row>)
    requires Increasing(log) && |seen| < |log| && seen <= Times(log)
    ensures var row := log[|log| - 1]; TIMESTAMP in row && News(seen, part + [row]) == News(seen, part) + [row[TIMESTAMP]]
  {
    var row := log[|log| - 1];
    assert (part + [row])[..|part|] == part;
    if seen != [] {
      assert seen[|seen| - 1] == Times(log)[|seen| - 1];
    }
  }

  lemma {:induction false} NoNews(seen: seq<real>, answer: seq<Row>)
    requires answer != [] ==> seen != []
    requires forall i :: 0 <= i < |answer| && TIMESTAMP in answer[i] ==> answer[i][TIMESTAMP] <= seen[|seen| - 1]
    ensures News(seen, answer) == []
  {
    if answer != [] {
      NoNews(seen, answer[..|answer| - 1]);
    }
  }

  lemma FirstPoll(log: seq<Row>, size: nat, start: real)
    requires Increasing(log) && |log| <= size && (log != [] ==> start <= log[0][TIMESTAMP])
    ensures Since(FirstRows(Reverse(log), size), start) == log
  {
    hide Reverse, Since, Filter;
    SinceReversed(log, start);
    FilterSuffix(log, 0, start);
    assert log[0..] == log;
  }

  /** A client that always polls from its last timestamp sees every row of the run, when no more than
      `size` rows arrive between two polls. */
  lemma {:induction false} PollingMissesNothing(batches: seq<seq<Op>>, size: nat, start: real)
    requires size >= 1 && forall i :: 0 <= i < |batches| ==> Ticks(batches[i]) <= size
    requires var ops := Flatten(batches); Legal(ops) && TimesKept(ops) && Increasing(Log(ops))
    requires var log := Log(Flatten(batches)); log != [] ==> start <= log[0][TIMESTAMP]
    ensures Collected(batches, size, start) == Times(Log(Flatten(batches)))
  {
    hide Held, Log, Since, News, Legal, TimesKept, Increasing, Ticks, Reverse, FirstRows, Times;
    if batches == [] {
      NothingLogged();
    } else {
      var init, last := batches[..|batches| - 1], batches[|batches| - 1];
      var ops := Flatten(batches);
      var log := Log(ops);
      FlattenKeeps(Flatten(init), last);
      TimesArePrefix(Flatten(init), last);
      StartKept(Log(Flatten(init)), log, start);
      PollingMissesNothing(init, size, start);
      var seen := Times(Log(Flatten(init)));
      HistoryRefinesLog(ops, size);
      PollNews(seen, log, size, start);
    }
  }

  lemma NothingLogged()
    ensures Log([]) == [] && Times([]) == []
  {
  }

  lemma FlattenKeeps(a: seq<Op>, b: seq<Op>)
    requires Legal(a + b) && TimesKept(a + b)
    ensures Legal(a) && TimesKept(a)
  {
    assert a != [] ==> (a + b)[0] == a[0];
    forall i | 0 <= i < |a| && a[i].Set?
      ensures a[i].name != TIMESTAMP
    {
      assert (a + b)[i] == a[i];
    }
  }

  lemma StartKept(before: seq<Row>, log: seq<Row>, start: real)
    requires Increasing(before) && Increasing(log) && Times(before) <= Times(log)
    requires log != [] ==> start <= log[0][TIMESTAMP]
    ensures before != [] ==> start <= before[0][TIMESTAMP]
  {
    assert before != [] ==> Times(before)[0] == Times(log)[0];
  }

  lemma PollNews(seen: seq<real>, log: seq<Row>, size: nat, start: real)
    requires size >= 1 && Increasing(log) && seen <= Times(log) && |log| - |seen| <= size
    requires log != [] ==> start <= log[0][TIMESTAMP]
    ensures var since := if seen == [] then start else seen[|seen| - 1];
      seen + News(seen, Since(FirstRows(Reverse(log), size), since)) == Times(log)
  {
    hide Since, News, Reverse, FirstRows, Increasing;
    HasTimes(log);
    Halves(seen, Times(log));
    if seen == [] {
      FirstPoll(log, size, start);
      FirstNews(log);
    } else {
      NextPoll(seen, log, size);
    }
  }

  lemma HasTimes(log: seq<Row>)
    requires Increasing(log)
    ensures forall i :: 0 <= i < |log| ==> TIMESTAMP in log[i]
  {
  }

  lemma FirstNews(log: seq<Row>)
    requires Increasing(log)
    ensures News([], log) == Times(log)[0..]
  {
    hide News;
    assert log[0..] == log;
    NewsOf([], log, 0, 0);
  }

  lemma NextPoll(seen: seq<real>, log: seq<Row>, size: nat)
    requires size >= 1 && Increasing(log) && seen != [] && seen <= Times(log) && |log| - |seen| <= size
    ensures News(seen, Since(FirstRows(Reverse(log), size), seen[|seen| - 1])) == Times(log)[|seen|..]
  {
    hide Since, News, Reverse, FirstRows, Increasing;
    var n := |seen|;
    HasTimes(log);
    assert seen[n - 1] == Times(log)[n - 1];
    PollAnswer(log, n, size);
    NewsOf(seen, log, if |log| - n < size then n - 1 else |log| - size, n);
  }
}
