/** The Wi-Fi connection loop and the persisted boot mode: `connection_task`, `read_boot_mode` and
    `write_boot_mode` of `crates/firmware-nostd/src/main.rs`. */
module WifiRoundRobin {
  import opened Wrappers
  import opened Bytes

  // ---------------------------------------------------------------- the boot mode

  datatype BootMode = Sta | Ap

  /** A stored value that is absent, empty or starts with anything but 1 means station mode. */
  function BootModeOf(stored: Option<seq<byte>>): BootMode {
    if stored.Some? && stored.value != [] && stored.value[0] == 1 then Ap else Sta
  }

  method ReadBootMode(stored: Option<seq<byte>>) returns (mode: BootMode)
    ensures mode == BootModeOf(stored)
    ensures mode == Ap <==> stored.Some? && stored.value != [] && stored.value[0] == 1
  {
    if stored.Some? && |stored.value| >= 1 && stored.value[0] == 1 {
      return Ap;
    }
    return Sta;
  }

  /** `fails` says that the storage write fails, which leaves the stored value as it was. A mode that is
      already stored is not written again. */
  method WriteBootMode(stored: Option<seq<byte>>, mode: BootMode, fails: bool)
    returns (next: Option<seq<byte>>, wrote: bool)
    ensures wrote <==> BootModeOf(stored) != mode && !fails
    ensures !wrote ==> next == stored
    ensures wrote ==> BootModeOf(next) == mode && next == Some([if mode == Ap then 1 else 0])
  {
    var now := ReadBootMode(stored);
    if now == mode {
      return stored, false;
    }
    var b: byte := match mode { case Sta => 0 case Ap => 1 };
    if fails {
      return stored, false;
    }
    return Some([b]), true;
  }

  // ---------------------------------------------------------------- the loop

  datatype Outcome = SetConfigFails | ConnectFails | Connects

  /** The loop's two counters. */
  datatype Task = Task(idx: nat, fails: nat)

  predicate FallsBack(t: Task, n: nat) {
    t.fails >= 3 * n
  }

  /** The network an iteration tries. */
  function Current(t: Task, n: nat): (k: nat)
    requires n > 0
    ensures k < n
  {
    t.idx % n
  }

  /** One iteration over `n` networks: a fallback iteration tries none, a success clears the failures
      and stays on its network, a failure of either kind moves to the next. */
  function Next(t: Task, n: nat, o: Outcome): Task
    requires n > 0
  {
    if FallsBack(t, n) then t
    else if o.Connects? then Task(Current(t, n), 0)
    else Task(Current(t, n) + 1, t.fails + 1)
  }

  function After(n: nat, os: seq<Outcome>): Task
    requires n > 0
  {
    if os == [] then Task(0, 0) else Next(After(n, os[..|os| - 1]), n, os[|os| - 1])
  }

  /** The networks that failed, in order, since boot or the last success. */
  function Failed(n: nat, os: seq<Outcome>): seq<nat>
    requires n > 0
  {
    if os == [] then []
    else
      var init := os[..|os| - 1];
      var t := After(n, init);
      if FallsBack(t, n) then Failed(n, init)
      else if os[|os| - 1].Connects? then []
      else Failed(n, init) + [Current(t, n)]
  }

  function Times(log: seq<nat>, k: nat): nat {
    if log == [] then 0 else Times(log[..|log| - 1], k) + (if log[|log| - 1] == k then 1 else 0)
  }

  /** Some iteration of the run began in fallback. */
  predicate FellBack(n: nat, os: seq<Outcome>)
    requires n > 0
  {
    os != [] && (FellBack(n, os[..|os| - 1]) || FallsBack(After(n, os[..|os| - 1]), n))
  }

  /** The boot mode after the run, when every write succeeds: access point from the first fallback on,
      station mode after a success, else as it was. */
  function ModeAfter(n: nat, os: seq<Outcome>, mode: BootMode): BootMode
    requires n > 0
  {
    if os == [] then mode
    else
      var init := os[..|os| - 1];
      if FallsBack(After(n, init), n) then Ap
      else if os[|os| - 1].Connects? then Sta
      else ModeAfter(n, init, mode)
  }

  /** The networks tried, in order. */
  function Tries(networks: seq<string>, os: seq<Outcome>): seq<string>
    requires networks != []
  {
    if os == [] then []
    else
      var t := After(|networks|, os[..|os| - 1]);
      Tries(networks, os[..|os| - 1]) + if FallsBack(t, |networks|) then [] else [networks[Current(t, |networks|)]]
  }

  /** The task over a run of iterations with a fixed list of networks; each iteration takes its outcome
      from `os`. With no networks it only waits. `nvsFails` says that storage writes fail. */
  method ConnectionTask(networks: seq<string>, os: seq<Outcome>, stored: Option<seq<byte>>, nvsFails: bool)
    returns (tried: seq<string>, rebooting: bool, mode: Option<seq<byte>>)
    ensures networks == [] ==> tried == [] && !rebooting && mode == stored
    ensures networks != [] ==> tried == Tries(networks, os) && rebooting == FellBack(|networks|, os)
    ensures nvsFails ==> mode == stored
    ensures networks != [] && !nvsFails ==> BootModeOf(mode) == ModeAfter(|networks|, os, BootModeOf(stored))
  {
    var t := Task(0, 0);
    tried, rebooting, mode := [], false, stored;
    if networks == [] {
      return;
    }
    for i := 0 to |os|
      invariant t == After(|networks|, os[..i])
      invariant rebooting == FellBack(|networks|, os[..i])
      invariant tried == Tries(networks, os[..i])
      invariant nvsFails ==> mode == stored
      invariant !nvsFails ==> BootModeOf(mode) == ModeAfter(|networks|, os[..i], BootModeOf(stored))
    {
      assert os[..i + 1][..i] == os[..i];
      var net: Option<nat>;
      var reboots;
      t, net, reboots, mode := Iteration(t, |networks|, os[i], mode, nvsFails);
      rebooting := rebooting || reboots;
      tried := tried + match net { case Some(k) => [networks[k]] case None => [] };
    }
    assert os[..|os|] == os;
  }

  /** One turn of the loop: the counters, the network tried and the boot mode afterwards. */
  method Iteration(t: Task, n: nat, o: Outcome, stored: Option<seq<byte>>, nvsFails: bool)
    returns (next: Task, tried: Option<nat>, rebooting: bool, mode: Option<seq<byte>>)
    requires n > 0
    ensures next == Next(t, n, o)
    ensures rebooting == FallsBack(t, n)
    ensures tried == if FallsBack(t, n) then None else Some(Current(t, n))
    ensures nvsFails ==> mode == stored
    ensures !nvsFails ==> BootModeOf(mode) ==
                          if FallsBack(t, n) then Ap else if o.Connects? then Sta else BootModeOf(stored)
  {
    var (idx, fails) := (t.idx, t.fails);
    mode := stored;
    if fails >= n * 3 {
      var wrote;
      mode, wrote := WriteBootMode(stored, Ap, nvsFails);
      return t, None, true, mode;
    }
    idx := idx % n;
    tried := Some(idx);
    match o {
      case SetConfigFails =>
        idx := idx + 1;
        fails := fails + 1;
      case Connects =>
        fails := 0;
        var wrote;
        mode, wrote := WriteBootMode(stored, Sta, nvsFails);
      case ConnectFails =>
        idx := idx + 1;
        fails := fails + 1;
    }
    next, rebooting := Task(idx, fails), false;
  }

  /** The first network is tried first; after a success the same one again, after a failure of either kind the
      next one, the first after the last. */
  lemma {:induction false} TriesInTurn(n: nat, os: seq<Outcome>, o: Outcome)
    requires n > 0 && !FallsBack(After(n, os), n)
    ensures Current(After(n, []), n) == 0
    ensures var (k, next) := (Current(After(n, os), n), Current(After(n, os + [o]), n));
      next == if o.Connects? then k else if k + 1 < n then k + 1 else 0
  {
    assert (os + [o])[..|os|] == os;
    var k := Current(After(n, os), n);
    SmallMod(k, n);
    SmallMod(k + 1, n);
  }

  predicate Connected(os: seq<Outcome>) {
    os != [] && (os[|os| - 1].Connects? || Connected(os[..|os| - 1]))
  }

  /** The boot mode after a run: access point for good once it fell back, else station mode once it connected. */
  lemma {:induction false} ModeByHistory(n: nat, os: seq<Outcome>, mode: BootMode)
    requires n > 0
    ensures FellBack(n, os) ==> FallsBack(After(n, os), n)
    ensures ModeAfter(n, os, mode) == if FellBack(n, os) then Ap else if Connected(os) then Sta else mode
  {
    if os != [] {
      ModeByHistory(n, os[..|os| - 1], mode);
    }
  }

  // ---------------------------------------------------------------- three failures each

  /** `r` steps of the cycle from `s` have passed network `k`. */
  predicate Passed(s: nat, r: nat, k: nat, n: nat) {
    s <= k < s + r || k + n < s + r
  }

  /** The failures so far: `q` whole rounds and `r` more networks from `s`, the cursor on the next. */
  ghost predicate Rounds(n: nat, t: Task, log: seq<nat>, s: nat, q: nat, r: nat) {
    && s < n && r < n && t.fails == |log| == q * n + r
    && (t.idx == (if s + r < n then s + r else s + r - n) || (t.idx == n && (s + r == n || s + r == 0)))
    && (forall k :: 0 <= k < n ==> Times(log, k) == q + if Passed(s, r, k, n) then 1 else 0)
  }

  lemma {:induction false} SmallMod(x: nat, n: nat)
    requires 0 < n && x <= n
    ensures x % n == if x == n then 0 else x
  {
  }

  lemma {:induction false} TimesSnoc(log: seq<nat>, c: nat, k: nat)
    ensures Times(log + [c], k) == Times(log, k) + if c == k then 1 else 0
  {
    assert (log + [c])[..|log|] == log;
  }

  lemma {:induction false} PassedNext(s: nat, r: nat, k: nat, n: nat, c: nat)
    requires s < n && r < n && k < n && c == if s + r < n then s + r else s + r - n
    ensures !Passed(s, r, c, n)
    ensures Passed(s, r + 1, k, n) <==> Passed(s, r, k, n) || k == c
    ensures Passed(s, n, k, n) && !Passed(s, 0, k, n)
  {
  }

  lemma {:induction false} OneFailure(n: nat, t: Task, log: seq<nat>, s: nat, q: nat, r: nat) returns (q': nat, r': nat)
    requires 0 < n && Rounds(n, t, log, s, q, r)
    ensures Rounds(n, Task(Current(t, n) + 1, t.fails + 1), log + [Current(t, n)], s, q', r')
  {
    SmallMod(t.idx, n);
    var c := Current(t, n);
    q', r' := if r + 1 < n then q else q + 1, if r + 1 < n then r + 1 else 0;
    assert q' * n + r' == q * n + r + 1;
    forall k | 0 <= k < n ensures Times(log + [c], k) == q' + if Passed(s, r', k, n) then 1 else 0 {
      TimesSnoc(log, c, k);
      PassedNext(s, r, k, n, c);
    }
  }

  lemma {:induction false} RunRounds(n: nat, os: seq<Outcome>) returns (s: nat, q: nat, r: nat)
    requires n > 0
    ensures Rounds(n, After(n, os), Failed(n, os), s, q, r)
  {
    if os == [] {
      s, q, r := 0, 0, 0;
    } else {
      var init := os[..|os| - 1];
      s, q, r := RunRounds(n, init);
      var t := After(n, init);
      if !FallsBack(t, n) {
        if os[|os| - 1].Connects? {
          s, q, r := Current(t, n), 0, 0;
        } else {
          q, r := OneFailure(n, t, Failed(n, init), s, q, r);
        }
      }
    }
  }

  lemma {:induction false} AtMostThreeRounds(n: nat, os: seq<Outcome>)
    requires n > 0
    ensures After(n, os).fails <= 3 * n
  {
    if os != [] { AtMostThreeRounds(n, os[..|os| - 1]); }
  }

  lemma {:induction false} RoundsOf(n: nat, q: nat, r: nat)
    requires 0 < n && r < n && q * n + r <= 3 * n
    ensures q <= 3 && (q == 3 ==> r == 0) && (q * n + r == 3 * n <==> q == 3)
  {
    if q >= 4 {
      MoreRounds(n, q, 4);
      assert false;
    } else if q <= 2 {
      MoreRounds(n, 2, q);
    }
  }

  lemma {:induction false} MoreRounds(n: nat, a: nat, b: nat)
    requires a >= b
    ensures a * n >= b * n
  {
  }

  /** Every one of the `n` networks has failed exactly three times. */
  predicate ThreeEach(n: nat, log: seq<nat>) {
    forall k :: 0 <= k < n ==> Times(log, k) == 3
  }

  predicate ThreeAtMost(n: nat, log: seq<nat>) {
    forall k :: 0 <= k < n ==> Times(log, k) <= 3
  }

  lemma {:induction false} RoundsEnd(n: nat, t: Task, log: seq<nat>, s: nat, q: nat, r: nat)
    requires 0 < n && Rounds(n, t, log, s, q, r) && t.fails <= 3 * n
    ensures FallsBack(t, n) <==> ThreeEach(n, log)
    ensures ThreeAtMost(n, log)
  {
    RoundsOf(n, q, r);
    var c := if s + r < n then s + r else s + r - n;
    assert !Passed(s, r, c, n);
    assert Times(log, c) == q;
    if q == 3 {
      forall k | 0 <= k < n ensures Times(log, k) == 3 {
        assert !Passed(s, 0, k, n);
      }
    }
  }

  /** The access-point fallback happens exactly when every network has failed exactly three times since
      boot or the last success; no network ever fails more often. */
  lemma {:induction false} FallbackAfterThreeEach(n: nat, os: seq<Outcome>)
    requires n > 0
    ensures FallsBack(After(n, os), n) <==> ThreeEach(n, Failed(n, os))
    ensures ThreeAtMost(n, Failed(n, os))
  {
    var s, q, r := RunRounds(n, os);
    AtMostThreeRounds(n, os);
    RoundsEnd(n, After(n, os), Failed(n, os), s, q, r);
  }
}
