/** Extending a 16-bit pulse counter in software: `EspPulseCounter::count` of
    `crates/firmware/src/hw_pcnt.rs`, and the accumulation, flow windows and battery average of
    `sensor_task` in `crates/firmware-nostd/src/sensors.rs`. */
module Pulses {
  import opened Wrappers

  const HALF: nat := 32768
  const SPAN: nat := 65536
  /** The range of a raw counter value. */
  predicate I16(n: int) {
    -32768 <= n < 32768
  }

  const I64_MAX: nat := 0x7FFF_FFFF_FFFF_FFFF

  function Saturated(n: nat): nat {
    if n <= I64_MAX then n else I64_MAX
  }

  // ---------------------------------------------------------------- the IDF counter

  /** The pulses one read adds: a smaller raw value is taken for one wrap after 32767. */
  function EspDelta(last: int, raw: int): int {
    if raw >= last then raw - last else HALF - 1 - last + raw + 1
  }

  class EspPulseCounter {
    var lastRaw: int
    var total: nat

    constructor ()
      ensures lastRaw == 0 && total == 0
    {
      lastRaw, total := 0, 0;
    }

    /** `reading` is `None` when the driver call fails; the code then goes on with a raw value of 0. */
    method Count(reading: Option<int>) returns (r: nat)
      requires I16(lastRaw) && (reading.Some? ==> I16(reading.value))
      modifies this
      ensures I16(lastRaw)
      ensures Counter(lastRaw, total) == Counter(old(lastRaw), old(total)).Read(reading)
      ensures r == total
    {
      var raw := if reading.Some? then reading.value else 0;
      var delta;
      if raw >= lastRaw {
        delta := raw - lastRaw;
      } else {
        delta := HALF - 1 - lastRaw + raw + 1;
      }
      if delta > 0 {
        total := Saturated(total + delta);
      }
      lastRaw := raw;
      r := total;
    }
  }

  datatype Counter = Counter(lastRaw: int, total: nat) {
    function Read(reading: Option<int>): Counter
      requires I16(lastRaw) && (reading.Some? ==> I16(reading.value))
    {
      var raw := if reading.Some? then reading.value else 0;
      var delta := EspDelta(lastRaw, raw);
      Counter(raw, if delta > 0 then Saturated(total + delta) else total)
    }
  }

  /** One read: how many pulses there have been since the counter was cleared, and whether the driver
      call succeeds. The raw value is that count modulo `m`. */
  datatype Sample = Sample(pulses: nat, ok: bool)

  /** The software counter after the reads, from the cleared state. */
  function After(ss: seq<Sample>, m: nat): (c: Counter)
    requires 0 < m <= HALF
    ensures 0 <= c.lastRaw < m
  {
    if ss == [] then Counter(0, 0)
    else
      var s := ss[|ss| - 1];
      After(ss[..|ss| - 1], m).Read(if s.ok then Some(s.pulses % m) else None)
  }

  /** The count at the last successful read. */
  function LastGood(ss: seq<Sample>): nat {
    if ss == [] then 0
    else if ss[|ss| - 1].ok then ss[|ss| - 1].pulses
    else LastGood(ss[..|ss| - 1])
  }

  /** Some read has failed since then. */
  predicate Failing(ss: seq<Sample>) {
    ss != [] && !ss[|ss| - 1].ok
  }

  /** Fewer than `m` pulses between successful reads. */
  predicate Frequent(ss: seq<Sample>, m: nat) {
    ss != [] ==>
      var (init, s) := (ss[..|ss| - 1], ss[|ss| - 1]);
      Frequent(init, m) && (s.ok ==> LastGood(init) <= s.pulses < LastGood(init) + m)
  }

  /** What the total gains over the truth between two successful reads of `from` and `to` pulses. */
  function Excess(from: nat, to: nat, failing: bool, m: nat): nat
    requires 0 < m <= HALF
  {
    if to % m < from % m then HALF - m
    else if failing && from % m != 0 then HALF
    else 0
  }

  function Excesses(ss: seq<Sample>, m: nat): nat
    requires 0 < m <= HALF
  {
    if ss == [] then 0
    else
      var (init, s) := (ss[..|ss| - 1], ss[|ss| - 1]);
      Excesses(init, m) + (if s.ok then Excess(LastGood(init), s.pulses, Failing(init), m) else 0)
  }

  lemma {:induction false} MulBounds(m: int, k: int)
    requires m > 0
    ensures k >= 1 ==> m * k >= m
    ensures k <= -1 ==> m * k <= -m
  {
  }

  lemma {:induction false} RemainderUnique(c: nat, m: nat, q: nat, r: nat)
    requires m > 0 && c == m * q + r && r < m
    ensures c % m == r
  {
    var k := c / m - q;
    assert m * k == m * (c / m) - m * q;
    MulBounds(m, k);
    assert k == 0;
  }

  lemma {:induction false} RemainderMoves(from: nat, to: nat, m: nat)
    requires m > 0 && from <= to < from + m
    ensures to % m == from % m + (to - from) || to % m == from % m + (to - from) - m
  {
    var (q, r) := (from / m, from % m);
    var d := to - from;
    if r + d < m {
      RemainderUnique(to, m, q, r + d);
    } else {
      assert m * (q + 1) == m * q + m;
      RemainderUnique(to, m, q + 1, r + d - m);
    }
  }

  /** The counter's state, in terms of the last successful read, whether a read failed since, and the
      excess so far. */
  predicate Tracks(c: Counter, good: nat, failing: bool, excess: nat, m: nat)
    requires 0 < m <= HALF
  {
    if failing
    then c.lastRaw == 0 && c.total == Saturated(good + excess + if good % m == 0 then 0 else HALF - good % m)
    else c.lastRaw == good % m && c.total == Saturated(good + excess)
  }

  lemma {:induction false} SuccessTracks(c: Counter, good: nat, failing: bool, excess: nat, to: nat, m: nat)
    requires 0 < m <= HALF && Tracks(c, good, failing, excess, m) && good <= to < good + m
    ensures 0 <= c.lastRaw < HALF
    ensures Tracks(c.Read(Some(to % m)), to, false, excess + Excess(good, to, failing, m), m)
  {
    RemainderMoves(good, to, m);
  }

  lemma {:induction false} FailureTracks(c: Counter, good: nat, failing: bool, excess: nat, m: nat)
    requires 0 < m <= HALF && Tracks(c, good, failing, excess, m)
    ensures 0 <= c.lastRaw < HALF
    ensures Tracks(c.Read(None), good, true, excess, m)
  {
  }

  /** The exact total after any run of reads, for a counter of any modulus up to 32768. */
  lemma {:induction false} ExactTotal(ss: seq<Sample>, m: nat)
    requires 0 < m <= HALF && Frequent(ss, m)
    ensures Tracks(After(ss, m), LastGood(ss), Failing(ss), Excesses(ss, m), m)
  {
    if ss == [] {
      RemainderUnique(0, m, 0, 0);
    } else {
      var init, s := ss[..|ss| - 1], ss[|ss| - 1];
      ExactTotal(init, m);
      if s.ok {
        SuccessTracks(After(init, m), LastGood(init), Failing(init), Excesses(init, m), s.pulses, m);
      } else {
        FailureTracks(After(init, m), LastGood(init), Failing(init), Excesses(init, m), m);
      }
    }
  }

  /** The successful read at `j` follows the one before it without harm: it shows no wrap, or one of
      the modulus the formula assumes; and no read failed in between, or the earlier raw value was
      zero, or the counter wrapped. */
  predicate Harmless(ss: seq<Sample>, m: nat, j: nat)
    requires 0 < m && j < |ss|
  {
    var (from, to) := (LastGood(ss[..j]) % m, ss[j].pulses % m);
    if to < from then m == HALF else Failing(ss[..j]) ==> from == 0
  }

  ghost predicate Benign(ss: seq<Sample>, m: nat)
    requires 0 < m
  {
    forall j :: 0 <= j < |ss| && ss[j].ok ==> Harmless(ss, m, j)
  }

  lemma {:induction false} BenignSnoc(ss: seq<Sample>, m: nat)
    requires 0 < m && ss != []
    ensures var (init, s) := (ss[..|ss| - 1], ss[|ss| - 1]);
            Benign(ss, m) <==> Benign(init, m) && (s.ok ==> Harmless(ss, m, |ss| - 1))
  {
    var init := ss[..|ss| - 1];
    forall j | 0 <= j < |init| ensures Harmless(init, m, j) == Harmless(ss, m, j) && init[j] == ss[j] {
      assert init[..j] == ss[..j];
    }
    if Benign(ss, m) {
      forall j | 0 <= j < |init| && init[j].ok ensures Harmless(init, m, j) {
        assert Harmless(ss, m, j);
      }
    }
    if Benign(init, m) && (ss[|ss| - 1].ok ==> Harmless(ss, m, |ss| - 1)) {
      forall j | 0 <= j < |ss| && ss[j].ok ensures Harmless(ss, m, j) {
        if j < |init| { assert Harmless(init, m, j); }
      }
    }
  }

  lemma {:induction false} NoExcessIff(ss: seq<Sample>, m: nat)
    requires 0 < m <= HALF
    ensures Excesses(ss, m) == 0 <==> Benign(ss, m)
  {
    if ss != [] {
      NoExcessIff(ss[..|ss| - 1], m);
      BenignSnoc(ss, m);
    }
  }

  /** With fewer pulses than the modulus between successful reads, the total at a successful read is
      the true count exactly when every successful read was harmless. */
  lemma {:induction false} TotalIsTrue(ss: seq<Sample>, m: nat)
    requires 0 < m <= HALF && Frequent(ss, m) && !Failing(ss) && LastGood(ss) < I64_MAX
    ensures After(ss, m).total == LastGood(ss) <==> Benign(ss, m)
  {
    ExactTotal(ss, m);
    NoExcessIff(ss, m);
  }

  /** For the modulus the formula assumes and a driver that never fails, nothing is ever in excess. */
  lemma {:induction false} NoFailuresNoExcess(ss: seq<Sample>)
    requires forall s :: s in ss ==> s.ok
    ensures Excesses(ss, HALF) == 0
  {
    if ss != [] {
      NoFailuresNoExcess(ss[..|ss| - 1]);
      var init := ss[..|ss| - 1];
      if init != [] { assert init[|init| - 1] in ss; }
    }
  }

  /** One failed read at a standstill counts 32768 pulses that never were. */
  lemma {:induction false} FailedReadOvercounts()
    ensures After([Sample(5, true), Sample(5, false), Sample(5, true)], HALF).total == 5 + 32768
  {
    var ss := [Sample(5, true), Sample(5, false), Sample(5, true)];
    assert ss[..2][..1] == [Sample(5, true)] && [Sample(5, true)][..0] == [];
    assert After([], HALF) == Counter(0, 0);
    assert After(ss[..2][..1], HALF) == Counter(5, 5);
    assert After(ss[..2], HALF) == Counter(0, 32768);
  }

  // ---------------------------------------------------------------- the no_std accumulator

  /** A 16-bit pattern read as a signed number. */
  function Signed(n: nat): int
    requires n < SPAN
  {
    if n < HALF then n else n - SPAN
  }

  function WrappingSub(x: int, y: int): int {
    Signed((x - y) % SPAN)
  }

  /** The raw counter value after `pulses` pulses. */
  function Raw(pulses: nat): int {
    Signed(pulses % SPAN)
  }

  function Gain(last: int, raw: int): nat {
    var delta := WrappingSub(raw, last);
    if delta > 0 then delta else 0
  }

  /** The software total after `n` reads, one a second, `raws[0]` being the value at the start. */
  function Total(raws: seq<int>, n: nat): nat
    requires n < |raws|
  {
    if n == 0 then 0 else Total(raws, n - 1) + Gain(raws[n - 1], raws[n])
  }

  const MINUTE: nat := 60

  function SumOf(ns: seq<int>): int {
    if ns == [] then 0 else SumOf(ns[..|ns| - 1]) + ns[|ns| - 1]
  }

  lemma {:induction false} SumSnoc(ns: seq<int>, n: int)
    ensures SumOf(ns + [n]) == SumOf(ns) + n
  {
    assert (ns + [n])[..|ns|] == ns;
  }

  /** The deltas are those of the full minutes. */
  ghost predicate MinuteDeltas(raws: seq<int>, flows: seq<int>) {
    |flows| * MINUTE < |raws| &&
    forall k :: 0 <= k < |flows| ==> flows[k] == Total(raws, k * MINUTE + MINUTE) - Total(raws, k * MINUTE)
  }

  /** The sensor loop's pulse accumulation and the per-minute deltas its flow figures come from: they
      add up to the total at the last flow update. */
  method SensorTask(raws: seq<int>) returns (pulseTotal: nat, flows: seq<int>)
    requires raws != []
    ensures pulseTotal == Total(raws, |raws| - 1)
    ensures |flows| == (|raws| - 1) / 60
    ensures MinuteDeltas(raws, flows)
    ensures SumOf(flows) == Total(raws, |flows| * MINUTE)
  {
    var lastRaw := raws[0];
    pulseTotal := 0;
    flows := [];
    var pulsesAtLastFlow := 0;
    var secs := 0;
    while secs < |raws| - 1
      invariant 0 <= secs < |raws| && lastRaw == raws[secs]
      invariant pulseTotal == Total(raws, secs)
      invariant |flows| * MINUTE <= secs < |flows| * MINUTE + MINUTE
      invariant MinuteDeltas(raws, flows)
      invariant pulsesAtLastFlow == Total(raws, |flows| * MINUTE) == SumOf(flows)
    {
      secs := secs + 1;
      var raw := raws[secs];
      var delta := WrappingSub(raw, lastRaw);
      lastRaw := raw;
      if delta > 0 {
        pulseTotal := pulseTotal + delta;
      }
      MinuteMark(secs, |flows|);
      if secs % MINUTE == 0 {
        TotalGrows(raws, |flows| * MINUTE, secs);
        var deltaPulses := if pulseTotal >= pulsesAtLastFlow then pulseTotal - pulsesAtLastFlow else 0;
        SumSnoc(flows, deltaPulses);
        flows := flows + [deltaPulses];
        pulsesAtLastFlow := pulseTotal;
      }
    }
    FullMinutes(|raws| - 1, |flows|);
  }

  lemma {:induction false} MinuteMark(secs: nat, m: nat)
    requires m * MINUTE < secs <= m * MINUTE + MINUTE
    ensures secs % MINUTE == 0 <==> secs == m * MINUTE + MINUTE
  {
  }

  lemma {:induction false} FullMinutes(secs: nat, m: nat)
    requires m * MINUTE <= secs < m * MINUTE + MINUTE
    ensures secs / MINUTE == m
  {
  }

  lemma {:induction false} TotalGrows(raws: seq<int>, j: nat, k: nat)
    requires j <= k < |raws|
    ensures Total(raws, j) <= Total(raws, k)
    decreases k - j
  {
    if j < k {
      TotalGrows(raws, j, k - 1);
    }
  }

  function RawsOf(pulses: seq<nat>): (r: seq<int>)
    ensures |r| == |pulses| && forall i :: 0 <= i < |r| ==> r[i] == Raw(pulses[i])
  {
    seq(|pulses|, i requires 0 <= i < |pulses| => Raw(pulses[i]))
  }

  lemma {:induction false} GainOf(from: nat, to: nat)
    requires from <= to
    ensures Gain(Raw(from), Raw(to)) <= to - from
    ensures Gain(Raw(from), Raw(to)) == to - from <==> to - from < HALF
  {
    var d := to - from;
    assert (Raw(to) - Raw(from)) % SPAN == d % SPAN by { Congruent(from, to); }
  }

  lemma {:induction false} Congruent(from: nat, to: nat)
    requires from <= to
    ensures (Raw(to) - Raw(from)) % SPAN == (to - from) % SPAN
  {
    var (a, b) := (to / SPAN, from / SPAN);
    assert to == SPAN * a + to % SPAN && from == SPAN * b + from % SPAN;
  }

  ghost predicate Rising(pulses: seq<nat>) {
    forall i :: 0 < i < |pulses| ==> pulses[i - 1] <= pulses[i]
  }

  predicate Slow(pulses: seq<nat>, i: nat)
    requires 0 < i < |pulses|
  {
    pulses[i] < pulses[i - 1] + HALF
  }

  /** The accumulator never counts more than the truth, and counts all of it exactly when fewer than
      32768 pulses fall between any two reads. */
  lemma {:induction false} AccumulatorExact(pulses: seq<nat>, n: nat)
    requires n < |pulses| && Rising(pulses)
    ensures pulses[0] + Total(RawsOf(pulses), n) <= pulses[n]
    ensures pulses[0] + Total(RawsOf(pulses), n) == pulses[n] <==> forall i :: 0 < i <= n ==> Slow(pulses, i)
  {
    if n > 0 {
      AccumulatorExact(pulses, n - 1);
      GainOf(pulses[n - 1], pulses[n]);
      assert Slow(pulses, n) <==> pulses[n] < pulses[n - 1] + HALF;
    }
  }

  // ---------------------------------------------------------------- the battery average

  const WINDOW: nat := 15

  function RealSum(xs: seq<real>, lo: nat, hi: nat): real
    requires lo <= hi <= |xs|
  {
    if lo == hi then 0.0 else RealSum(xs, lo, hi - 1) + xs[hi - 1]
  }

  /** The circular window of the last fifteen battery samples. */
  class BatteryAverage {
    const window: array<real>
    var len: nat
    var pos: nat
    ghost var samples: seq<real>

    /** Below `pos` stand the newest samples, from `pos` on the older ones of a full window. */
    ghost predicate Valid()
      reads this, window
    {
      var n := |samples|;
      && window.Length == WINDOW
      && pos < WINDOW && pos <= n
      && (n < WINDOW ==> pos == n == len)
      && (n >= WINDOW ==> len == WINDOW)
      && (forall j :: 0 <= j < pos ==> window[j] == samples[n - pos + j])
      && (n >= WINDOW ==> forall j :: pos <= j < WINDOW ==> window[j] == samples[n - WINDOW - pos + j])
    }

    constructor ()
      ensures Valid() && fresh(window) && samples == []
    {
      window := new real[WINDOW](_ => 0.0);
      len, pos, samples := 0, 0, [];
    }

    /** The average of the latest samples, fifteen of them once there are that many. */
    method Push(v: real) returns (avg: real)
      requires Valid()
      modifies this, window
      ensures Valid() && samples == old(samples) + [v]
      ensures var few := if |samples| < 15 then |samples| else 15;
              avg == RealSum(samples, |samples| - few, |samples|) / few as real
    {
      Store(v);
      var sum := SumWindow();
      avg := sum / len as real;
    }

    /** Overwrites the oldest slot. */
    method Store(v: real)
      requires Valid()
      modifies this, window
      ensures Valid() && samples == old(samples) + [v]
    {
      window[pos] := v;
      samples := samples + [v];
      pos := (pos + 1) % WINDOW;
      if len < WINDOW {
        len := len + 1;
      }
    }

    /** The sum over the filled slots is the sum of the latest samples, whatever their rotation. */
    method SumWindow() returns (sum: real)
      requires Valid()
      ensures sum == RealSum(samples, |samples| - len, |samples|)
    {
      sum := 0.0;
      ghost var w := window[..];
      for i := 0 to len
        invariant sum == RealSum(w, 0, i)
      {
        sum := sum + window[i];
      }
      ghost var n := |samples|;
      if n < WINDOW {
        SameSum(w, 0, samples, 0, n);
      } else {
        SumSplit(w, 0, pos, WINDOW);
        SumSplit(samples, n - WINDOW, n - pos, n);
        SameSum(w, 0, samples, n - pos, pos);
        SameSum(w, pos, samples, n - WINDOW, WINDOW - pos);
      }
    }
  }

  lemma {:induction false} SumSplit(xs: seq<real>, lo: nat, mid: nat, hi: nat)
    requires lo <= mid <= hi <= |xs|
    ensures RealSum(xs, lo, hi) == RealSum(xs, lo, mid) + RealSum(xs, mid, hi)
    decreases hi - mid
  {
    if mid < hi { SumSplit(xs, lo, mid, hi - 1); }
  }

  lemma {:induction false} SameSum(xs: seq<real>, a: nat, ys: seq<real>, b: nat, n: nat)
    requires a + n <= |xs| && b + n <= |ys|
    requires forall i :: a <= i < a + n ==> xs[i] == ys[b - a + i]
    ensures RealSum(xs, a, a + n) == RealSum(ys, b, b + n)
  {
    if n > 0 {
      SameSum(xs, a, ys, b, n - 1);
      assert xs[a + n - 1] == ys[b - a + (a + n - 1)];
    }
  }
}
