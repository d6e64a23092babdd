/** Rates from counters that wrap around at 2^32. */
module Rate {
  import opened History

  const WIDTH: nat := 0x1_0000_0000

  type uint32 = n: nat | n < WIDTH

  /** `p_value - old` in 32-bit unsigned arithmetic. */
  function Difference(value: uint32, before: uint32): (d: uint32) {
    (value - before) % WIDTH
  }

  /** The rate reported for a counter value, given the one before it. */
  function RateOf(before: map<string, uint32>, name: string, value: uint32, freq: nat): nat
    requires freq > 0
  {
    if name in before then Difference(value, before[name]) / freq else 0
  }

  /** `tickRessource`: a history, and the last value of every counter. */
  class TickRessource {
    const history: Ressource
    const freq: uint32
    var known: map<string, uint32>

    constructor (size: nat, freq: uint32)
      ensures fresh(history) && history.v == [] && history.size == size && known == map[] && this.freq == freq
    {
      this.freq, known := freq, map[];
      history := new Ressource(size);
    }

    method SetTickValue(name: string, value: uint32)
      requires history.v != [] && freq > 0
      modifies this, history
      ensures history.v == SetProperty(old(history.v), name, RateOf(old(known), name, value, freq) as real)
      ensures known == old(known)[name := value]
    {
      if name in known {
        history.Set(name, (Difference(value, known[name]) / freq) as real);
      } else {
        history.Set(name, 0.0);
      }
      known := known[name := value];
    }
  }

  // ---------------------------------------------------------------- against the true counter

  function Wrapped(count: nat): uint32 {
    count % WIDTH
  }

  /** Up to one wrap between two readings, the difference is the true advance; beyond, it is not. */
  lemma DifferenceIsAdvance(a: nat, b: nat)
    requires a <= b
    ensures Difference(Wrapped(b), Wrapped(a)) == b - a <==> b - a < WIDTH
  {
    var qa, qb := a / WIDTH, b / WIDTH;
    assert a == qa * WIDTH + Wrapped(a) && b == qb * WIDTH + Wrapped(b);
    if b - a < WIDTH {
      assert qb == qa || qb == qa + 1;
      if qb == qa {
        assert Wrapped(b) - Wrapped(a) == b - a;
      } else {
        assert Wrapped(b) - Wrapped(a) == b - a - WIDTH;
      }
    }
  }

  /** What `freq` times a reported rate has lost against the advance is less than `freq`. */
  lemma RateBounds(a: nat, b: nat, name: string, before: map<string, uint32>, freq: nat)
    requires a <= b < a + WIDTH && freq > 0 && name in before && before[name] == Wrapped(a)
    ensures var r := RateOf(before, name, Wrapped(b), freq);
      r == (b - a) / freq && freq * r <= b - a < freq * r + freq
  {
    DifferenceIsAdvance(a, b);
  }

  /** One tick's reading of every counter that is set, as `setTickValue` calls. */
  datatype Reading = Reading(name: string, value: uint32)

  function Known(readings: seq<Reading>): map<string, uint32> {
    if readings == [] then map[]
    else
      var last := readings[|readings| - 1];
      Known(readings[..|readings| - 1])[last.name := last.value]
  }

  /** The sum of the rates reported for `name` over a run of calls. */
  function RateSum(readings: seq<Reading>, name: string, freq: nat): nat
    requires freq > 0
  {
    if readings == [] then 0
    else
      var before, last := readings[..|readings| - 1], readings[|readings| - 1];
      RateSum(before, name, freq) + (if last.name == name then RateOf(Known(before), name, last.value, freq) else 0)
  }

  /** The positions of the calls for `name`, in order, carry the wrapped values of `counts`. */
  ghost predicate Follows(readings: seq<Reading>, name: string, counts: seq<nat>) {
    if readings == [] then counts == []
    else
      var before, last := readings[..|readings| - 1], readings[|readings| - 1];
      if last.name == name
      then counts != [] && last.value == Wrapped(counts[|counts| - 1]) && Follows(before, name, counts[..|counts| - 1])
      else Follows(before, name, counts)
  }

  ghost predicate SlowEnough(counts: seq<nat>) {
    forall i :: 0 < i < |counts| ==> counts[i - 1] <= counts[i] < counts[i - 1] + WIDTH
  }

  lemma {:induction false} KnownIsLast(readings: seq<Reading>, name: string, counts: seq<nat>)
    requires Follows(readings, name, counts)
    ensures name in Known(readings) <==> counts != []
    ensures counts != [] ==> Known(readings)[name] == Wrapped(counts[|counts| - 1])
  {
    hide Wrapped;
    if readings != [] {
      var before, last := readings[..|readings| - 1], readings[|readings| - 1];
      KnownIsLast(before, name, if last.name == name then counts[..|counts| - 1] else counts);
    }
  }

  /** Over a run in which the true counter never advances by 2^32 between two readings, whatever
      other counters are read in between: `freq` times the sum of the rates is at most the total
      advance, and misses less than `freq` for every rate after the first. */
  lemma {:induction false} RatesAddUp(readings: seq<Reading>, name: string, counts: seq<nat>, freq: nat)
    requires freq > 0 && Follows(readings, name, counts) && SlowEnough(counts) && counts != []
    ensures var n, first, last := |counts| - 1, counts[0], counts[|counts| - 1];
      && first + freq * RateSum(readings, name, freq) <= last
      && last <= first + freq * RateSum(readings, name, freq) + n * (freq - 1)
  {
    hide Wrapped, RateOf, Known;
    var before, last := readings[..|readings| - 1], readings[|readings| - 1];
    if last.name != name {
      RatesAddUp(before, name, counts, freq);
    } else {
      var earlier := counts[..|counts| - 1];
      KnownIsLast(before, name, earlier);
      if earlier == [] {
        NeverReported(before, name, freq);
        NothingYet(Known(before), name, last.value, freq);
      } else {
        RatesAddUp(before, name, earlier, freq);
        var m := |counts| - 1;
        RateBounds(counts[m - 1], counts[m], name, Known(before), freq);
        AddOne(freq, RateSum(before, name, freq), RateOf(Known(before), name, last.value, freq), m);
      }
    }
  }

  lemma AddOne(freq: nat, sum: nat, r: nat, m: nat)
    requires freq > 0 && m > 0
    ensures freq * (sum + r) == freq * sum + freq * r
    ensures (m - 1) * (freq - 1) + (freq - 1) == m * (freq - 1)
  {
  }

  lemma NothingYet(before: map<string, uint32>, name: string, value: uint32, freq: nat)
    requires freq > 0 && name !in before
    ensures RateOf(before, name, value, freq) == 0
  {
  }

  lemma {:induction false} NeverReported(readings: seq<Reading>, name: string, freq: nat)
    requires freq > 0 && Follows(readings, name, [])
    ensures RateSum(readings, name, freq) == 0
  {
    if readings != [] {
      NeverReported(readings[..|readings| - 1], name, freq);
    }
  }
}
