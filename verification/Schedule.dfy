/** The cron-like schedule and the loop that drives it: `crates/core/src/schedule.rs` and
    `crates/firmware-nostd/src/schedule.rs`. Local time is an integer count of nanoseconds whose
    zero is a Thursday midnight; minutes are numbered from the same zero. */
module Schedules {
  import opened Wrappers

  const MINUTE: int := 60_000_000_000
  const SECOND: int := 1_000_000_000
  const MAX_ITERS: nat := 25 * 60
  const DAY: nat := 1440

  datatype Action = Switch(id: string) | WaterControl(on: bool)

  datatype Rule = Rule(id: string, action: Action, hours: seq<nat>, minutes: seq<nat>,
                       daysOfWeek: seq<nat>, enabled: bool, durationSecs: Option<nat>)
  {
    predicate MatchesDow(weekday: nat) {
      daysOfWeek == [] || weekday in daysOfWeek
    }

    predicate MatchesMinute(t: int) {
      enabled && Hour(t) in hours && MinuteOfHour(t) in minutes && MatchesDow(Weekday(t))
    }

    /** Does the rule match the minute with this number? */
    predicate Matches(m: int) {
      MatchesMinute(m * MINUTE)
    }
  }

  function MinuteNo(t: int): int { t / MINUTE }
  function FloorToMinute(t: int): int { t - t % MINUTE }
  function MinuteOfHour(t: int): nat { MinuteNo(t) % 60 }
  function Hour(t: int): nat { MinuteNo(t) / 60 % 24 }
  function Weekday(t: int): nat { (MinuteNo(t) / DAY + 3) % 7 }

  /** One rule coming due at one minute. */
  datatype Firing = Firing(minute: int, index: nat, rule: Rule)

  /** The firings of minute `m` among `rules`, in list order. */
  function Due(rules: seq<Rule>, m: int): seq<Firing> {
    if rules == [] then []
    else
      var last := |rules| - 1;
      Due(rules[..last], m) + (if rules[last].Matches(m) then [Firing(m, last, rules[last])] else [])
  }

  /** The firings of the `n` minutes after minute `a`, minute by minute, where `rulesAt` says which
      rules are in force at each. */
  function Window(rulesAt: int -> seq<Rule>, a: int, n: nat): seq<Firing> {
    if n == 0 then [] else Window(rulesAt, a, n - 1) + Due(rulesAt(a + n), a + n)
  }

  function Always(rules: seq<Rule>): int -> seq<Rule> { m => rules }

  function RulesOf(fs: seq<Firing>): (r: seq<Rule>)
    ensures |r| == |fs| && forall i :: 0 <= i < |fs| ==> r[i] == fs[i].rule
  {
    seq(|fs|, i requires 0 <= i < |fs| => fs[i].rule)
  }

  /** How many minutes a call of `evaluate_range` scans. */
  function Scanned(last: int, now: int): (n: nat) {
    if now <= last then 0 else Capped(MinuteNo(now) - MinuteNo(last))
  }

  function Capped(span: int): (n: nat) {
    if span <= 0 then 0 else if span < MAX_ITERS then span else MAX_ITERS
  }

  // ---------------------------------------------------------------- evaluate_range

  lemma {:induction false} FloorIsMinute(t: int)
    ensures FloorToMinute(t) == MinuteNo(t) * MINUTE
  {
  }

  lemma {:induction false} MinuteOfFloor(m: int)
    ensures MinuteNo(m * MINUTE) == m
  {
  }

  lemma {:induction false} DueSnoc(rules: seq<Rule>, k: nat, m: int)
    requires k < |rules|
    ensures Due(rules[..k + 1], m) ==
            Due(rules[..k], m) + (if rules[k].Matches(m) then [Firing(m, k, rules[k])] else [])
  {
    assert rules[..k + 1][..k] == rules[..k];
  }

  lemma {:induction false} RulesOfJoin(a: seq<Firing>, b: seq<Firing>)
    ensures RulesOf(a + b) == RulesOf(a) + RulesOf(b)
  {
  }

  /** The inner `for` loop: the rules matching one minute, appended to `before`. */
  method Collect(rules: seq<Rule>, t: int, before: seq<Rule>) returns (hits: seq<Rule>)
    requires t == MinuteNo(t) * MINUTE
    ensures hits == before + RulesOf(Due(rules, MinuteNo(t)))
  {
    hits := before;
    ghost var m := MinuteNo(t);
    for k := 0 to |rules|
      invariant hits == before + RulesOf(Due(rules[..k], m))
    {
      DueSnoc(rules, k, m);
      if rules[k].MatchesMinute(t) {
        RulesOfJoin(Due(rules[..k], m), [Firing(m, k, rules[k])]);
        assert RulesOf([Firing(m, k, rules[k])]) == [rules[k]];
        hits := hits + [rules[k]];
      }
    }
    assert rules[..|rules|] == rules;
  }

  method EvaluateRange(rules: seq<Rule>, last: int, now: int) returns (hits: seq<Rule>)
    ensures hits == RulesOf(Window(Always(rules), MinuteNo(last), Scanned(last, now)))
  {
    if now <= last {
      return [];
    }
    FloorIsMinute(last);
    FloorIsMinute(now);
    hits := ScanMinutes(rules, FloorToMinute(last) + MINUTE, FloorToMinute(now), MinuteNo(last), MinuteNo(now));
  }

  /** The loop over minute marks from `t` to `end`, at most 1500 of them. */
  method ScanMinutes(rules: seq<Rule>, from: int, end: int, ghost a: int, ghost b: int) returns (hits: seq<Rule>)
    requires from == (a + 1) * MINUTE && end == b * MINUTE
    ensures hits == RulesOf(Window(Always(rules), a, Capped(b - a)))
  {
    var t := from;
    hits := [];
    var iters := 0;
    while t <= end && iters < MAX_ITERS
      invariant 0 <= iters <= Capped(b - a)
      invariant t == (a + iters + 1) * MINUTE
      invariant hits == RulesOf(Window(Always(rules), a, iters))
    {
      MinuteOfFloor(a + iters + 1);
      RulesOfJoin(Window(Always(rules), a, iters), Due(rules, a + iters + 1));
      hits := Collect(rules, t, hits);
      t := t + MINUTE;
      iters := iters + 1;
    }
  }

  /** `evaluate_minute` reports exactly the rules due in the minute that contains `now`. */
  method EvaluateMinute(rules: seq<Rule>, now: int) returns (hits: seq<Rule>)
    ensures hits == RulesOf(Due(rules, MinuteNo(now)))
  {
    var last := FloorToMinute(now) - SECOND;
    FloorIsMinute(now);
    assert MinuteNo(last) == MinuteNo(now) - 1 by { BeforeMinute(MinuteNo(now)); }
    hits := EvaluateRange(rules, last, now);
    assert Scanned(last, now) == 1;
    OneMinute(rules, MinuteNo(last));
  }

  lemma {:induction false} BeforeMinute(m: int)
    ensures MinuteNo(m * MINUTE - SECOND) == m - 1
  {
  }

  lemma {:induction false} OneMinute(rules: seq<Rule>, a: int)
    ensures Window(Always(rules), a, 1) == Due(rules, a + 1)
  {
    assert Window(Always(rules), a, 0) == [];
  }

  // ---------------------------------------------------------------- what a window contains

  /** `f` names a rule of the list and a minute it matches. */
  predicate Belongs(f: Firing, rules: seq<Rule>) {
    f.index < |rules| && f.rule == rules[f.index] && f.rule.Matches(f.minute)
  }

  predicate Before(x: Firing, y: Firing) {
    x.minute < y.minute || (x.minute == y.minute && x.index < y.index)
  }

  ghost predicate Ascending(fs: seq<Firing>) {
    forall i, j :: 0 <= i < j < |fs| ==> Before(fs[i], fs[j])
  }

  lemma {:induction false} DueHas(rules: seq<Rule>, m: int, f: Firing)
    ensures f in Due(rules, m) <==> f.minute == m && Belongs(f, rules)
  {
    if rules != [] {
      var last := |rules| - 1;
      DueHas(rules[..last], m, f);
      var end := if rules[last].Matches(m) then [Firing(m, last, rules[last])] else [];
      assert f in Due(rules, m) <==> f in Due(rules[..last], m) || f in end;
    }
  }

  lemma {:induction false} DueAscends(rules: seq<Rule>, m: int)
    ensures Ascending(Due(rules, m))
  {
    if rules != [] {
      var last := |rules| - 1;
      DueAscends(rules[..last], m);
      var rest := Due(rules[..last], m);
      if rules[last].Matches(m) {
        forall f | f in rest ensures Before(f, Firing(m, last, rules[last])) {
          DueHas(rules[..last], m, f);
        }
        AscendingSnoc(rest, Firing(m, last, rules[last]));
      }
    }
  }

  lemma {:induction false} AscendingSnoc(a: seq<Firing>, x: Firing)
    requires Ascending(a) && forall f :: f in a ==> Before(f, x)
    ensures Ascending(a + [x])
  {
    var c := a + [x];
    forall i, j | 0 <= i < j < |c| ensures Before(c[i], c[j]) {
      if j < |a| {
        assert Before(a[i], a[j]);
      } else {
        assert a[i] in a;
      }
    }
  }

  lemma {:induction false} AscendingJoin(a: seq<Firing>, b: seq<Firing>, m: int)
    requires Ascending(a) && Ascending(b)
    requires forall f :: f in a ==> f.minute < m
    requires forall f :: f in b ==> f.minute >= m
    ensures Ascending(a + b)
  {
    var c := a + b;
    forall i, j | 0 <= i < j < |c| ensures Before(c[i], c[j]) {
      if j < |a| {
        assert Before(a[i], a[j]);
      } else if |a| <= i {
        assert Before(b[i - |a|], b[j - |a|]);
      } else {
        assert a[i] in a && b[j - |a|] in b;
      }
    }
  }

  lemma {:induction false} WindowHas(rulesAt: int -> seq<Rule>, a: int, n: nat, f: Firing)
    ensures f in Window(rulesAt, a, n) <==> a < f.minute <= a + n && Belongs(f, rulesAt(f.minute))
  {
    if n > 0 {
      WindowHas(rulesAt, a, n - 1, f);
      DueHas(rulesAt(a + n), a + n, f);
    }
  }

  lemma {:induction false} WindowEarlier(rulesAt: int -> seq<Rule>, a: int, n: nat)
    ensures forall f :: f in Window(rulesAt, a, n) ==> f.minute < a + n + 1
  {
    forall f | f in Window(rulesAt, a, n) ensures f.minute < a + n + 1 {
      WindowHas(rulesAt, a, n, f);
    }
  }

  lemma {:induction false} DueAtOnce(rules: seq<Rule>, m: int)
    ensures forall f :: f in Due(rules, m) ==> f.minute == m
  {
    forall f | f in Due(rules, m) ensures f.minute == m {
      DueHas(rules, m, f);
    }
  }

  lemma {:induction false} WindowAscends(rulesAt: int -> seq<Rule>, a: int, n: nat)
    ensures Ascending(Window(rulesAt, a, n))
  {
    if n > 0 {
      WindowAscends(rulesAt, a, n - 1);
      DueAscends(rulesAt(a + n), a + n);
      WindowEarlier(rulesAt, a, n - 1);
      DueAtOnce(rulesAt(a + n), a + n);
      AscendingJoin(Window(rulesAt, a, n - 1), Due(rulesAt(a + n), a + n), a + n);
    }
  }

  /** A window holds every matching (minute, rule) of its minutes once, in minute order and then list
      order, and nothing else. */
  lemma {:induction false} WindowExact(rulesAt: int -> seq<Rule>, a: int, n: nat)
    ensures Ascending(Window(rulesAt, a, n))
    ensures forall f :: f in Window(rulesAt, a, n) <==> a < f.minute <= a + n && Belongs(f, rulesAt(f.minute))
    ensures forall f :: multiset(Window(rulesAt, a, n))[f] <= 1
  {
    WindowAscends(rulesAt, a, n);
    forall f ensures f in Window(rulesAt, a, n) <==> a < f.minute <= a + n && Belongs(f, rulesAt(f.minute)) {
      WindowHas(rulesAt, a, n, f);
    }
    forall f ensures multiset(Window(rulesAt, a, n))[f] <= 1 {
      AscendingOnce(Window(rulesAt, a, n), f);
    }
  }

  /** Adjacent windows concatenate. */
  lemma {:induction false} WindowsJoin(rulesAt: int -> seq<Rule>, a: int, n: nat, k: nat)
    ensures Window(rulesAt, a, n + k) == Window(rulesAt, a, n) + Window(rulesAt, a + n, k)
  {
    if k > 0 {
      WindowsJoin(rulesAt, a, n, k - 1);
      var due := Due(rulesAt(a + n + k), a + n + k);
      assert Window(rulesAt, a, n + k) == Window(rulesAt, a, n + k - 1) + due;
    }
  }

  /** Two windows depend only on the rules in force at their minutes. */
  lemma {:induction false} WindowAgrees(f: int -> seq<Rule>, g: int -> seq<Rule>, a: int, n: nat)
    requires forall m :: a < m <= a + n ==> f(m) == g(m)
    ensures Window(f, a, n) == Window(g, a, n)
  {
    if n > 0 {
      WindowAgrees(f, g, a, n - 1);
    }
  }

  /** Splitting one call at any instant in between changes nothing when the whole spans at most 1500
      minutes. */
  lemma {:induction false} SplitCall(rules: seq<Rule>, last: int, mid: int, now: int)
    requires last <= mid <= now && MinuteNo(now) - MinuteNo(last) <= MAX_ITERS
    ensures Window(Always(rules), MinuteNo(last), Scanned(last, now)) ==
            Window(Always(rules), MinuteNo(last), Scanned(last, mid)) +
            Window(Always(rules), MinuteNo(mid), Scanned(mid, now))
  {
    MinuteNoMonotone(last, mid);
    MinuteNoMonotone(mid, now);
    WindowsJoin(Always(rules), MinuteNo(last), MinuteNo(mid) - MinuteNo(last), MinuteNo(now) - MinuteNo(mid));
  }

  lemma {:induction false} MinuteNoMonotone(x: int, y: int)
    requires x <= y
    ensures MinuteNo(x) <= MinuteNo(y)
  {
  }

  /** A longer jump reports its first 1500 minutes and drops the rest. */
  lemma {:induction false} LongJump(rules: seq<Rule>, last: int, now: int, f: Firing)
    requires MinuteNo(now) - MinuteNo(last) > 1500
    ensures f in Window(Always(rules), MinuteNo(last), Scanned(last, now)) <==>
            0 < f.minute - MinuteNo(last) <= 1500 && Belongs(f, rules)
  {
    if now <= last { MinuteNoMonotone(now, last); }
    WindowHas(Always(rules), MinuteNo(last), MAX_ITERS, f);
  }

  // ---------------------------------------------------------------- the driver loop

  /** One wake-up of the schedule task: the local time it read and the rules configured then. */
  datatype Wakeup = Wakeup(local: int, rules: seq<Rule>)

  /** The local time of wake-up `n`, counted from 1, or of the start. */
  function Last(start: int, ws: seq<Wakeup>, n: nat): int
    requires n <= |ws|
  {
    if n == 0 then start else ws[n - 1].local
  }

  /** What one wake-up fires. */
  function Fires(last: int, w: Wakeup): seq<Firing> {
    Window(Always(w.rules), MinuteNo(last), Scanned(last, w.local))
  }

  /** Everything the loop fires in its first `n` wake-ups, whatever the clock does. */
  function Log(start: int, ws: seq<Wakeup>, n: nat): seq<Firing>
    requires n <= |ws|
  {
    if n == 0 then [] else Log(start, ws, n - 1) + Fires(Last(start, ws, n - 1), ws[n - 1])
  }

  /** The schedule task: each wake-up evaluates the window since the previous one, fires its hits in
      order and moves the window's left end, whichever way the clock went. */
  method ScheduleTask(start: int, ws: seq<Wakeup>) returns (fired: seq<Rule>)
    ensures fired == RulesOf(Log(start, ws, |ws|))
  {
    var last := start;
    fired := [];
    for k := 0 to |ws|
      invariant last == Last(start, ws, k)
      invariant fired == RulesOf(Log(start, ws, k))
    {
      RulesOfJoin(Log(start, ws, k), Fires(last, ws[k]));
      var hits := EvaluateRange(ws[k].rules, last, ws[k].local);
      fired := fired + hits;
      last := ws[k].local;
    }
  }

  /** One wake-up's window, cut at 1500 minutes, sweeps over the minute of `f` and its rule matches. */
  predicate Sweeps(last: int, w: Wakeup, f: Firing) {
    MinuteNo(last) < f.minute <= MinuteNo(w.local) && f.minute <= MinuteNo(last) + MAX_ITERS && Belongs(f, w.rules)
  }

  /** How many of the first `n` wake-ups sweep over `f`. */
  function SweepCount(start: int, ws: seq<Wakeup>, n: nat, f: Firing): nat
    requires n <= |ws|
  {
    if n == 0 then 0
    else SweepCount(start, ws, n - 1, f) + (if Sweeps(Last(start, ws, n - 1), ws[n - 1], f) then 1 else 0)
  }

  lemma {:induction false} AscendingOnce(fs: seq<Firing>, f: Firing)
    requires Ascending(fs)
    ensures multiset(fs)[f] == if f in fs then 1 else 0
  {
    if fs != [] {
      var init, last := fs[..|fs| - 1], fs[|fs| - 1];
      assert fs == init + [last];
      AscendingInit(fs);
      AscendingOnce(init, f);
      assert multiset(fs)[f] == multiset(init)[f] + (if last == f then 1 else 0);
    }
  }

  lemma {:induction false} AscendingInit(fs: seq<Firing>)
    requires fs != [] && Ascending(fs)
    ensures Ascending(fs[..|fs| - 1]) && fs[|fs| - 1] !in fs[..|fs| - 1]
  {
    var init, k := fs[..|fs| - 1], |fs| - 1;
    forall i, j | 0 <= i < j < |init| ensures Before(init[i], init[j]) {
      assert Before(fs[i], fs[j]);
    }
    forall i | 0 <= i < k ensures init[i] != fs[k] {
      assert Before(fs[i], fs[k]);
    }
  }

  /** For any clock whatever, backward steps and long jumps included, the loop fires a rule for a
      minute exactly as often as its windows sweep over it. */
  lemma {:induction false} FiresOncePerSweep(start: int, ws: seq<Wakeup>, n: nat, f: Firing)
    requires n <= |ws|
    ensures multiset(Log(start, ws, n))[f] == SweepCount(start, ws, n, f)
  {
    if n > 0 {
      var last, w := Last(start, ws, n - 1), ws[n - 1];
      FiresOncePerSweep(start, ws, n - 1, f);
      SweepOnce(last, w, f);
      LogStep(start, ws, n, f);
    }
  }

  lemma {:induction false} LogStep(start: int, ws: seq<Wakeup>, n: nat, f: Firing)
    requires 0 < n <= |ws|
    ensures multiset(Log(start, ws, n))[f] ==
            multiset(Log(start, ws, n - 1))[f] + multiset(Fires(Last(start, ws, n - 1), ws[n - 1]))[f]
  {
    JoinCounts(Log(start, ws, n - 1), Fires(Last(start, ws, n - 1), ws[n - 1]), f);
  }

  lemma {:induction false} JoinCounts(a: seq<Firing>, b: seq<Firing>, f: Firing)
    ensures multiset(a + b)[f] == multiset(a)[f] + multiset(b)[f]
  {
  }

  lemma {:induction false} SweepOnce(last: int, w: Wakeup, f: Firing)
    ensures multiset(Fires(last, w))[f] == if Sweeps(last, w, f) then 1 else 0
  {
    if w.local <= last { MinuteNoMonotone(w.local, last); }
    WindowHas(Always(w.rules), MinuteNo(last), Scanned(last, w.local), f);
    WindowAscends(Always(w.rules), MinuteNo(last), Scanned(last, w.local));
    AscendingOnce(Fires(last, w), f);
  }

  predicate SteadyStep(last: int, now: int) {
    last <= now && MinuteNo(now) - MinuteNo(last) <= MAX_ITERS
  }

  /** The clock never steps back and no step passes over more than 1500 minute marks. */
  ghost predicate Steady(start: int, ws: seq<Wakeup>) {
    forall n :: 0 < n <= |ws| ==> SteadyStep(Last(start, ws, n - 1), Last(start, ws, n))
  }

  /** The rules that judge minute `m`: those configured at the first wake-up, from the one at index `k`
      on, that is not before it. */
  function Judge(ws: seq<Wakeup>, k: nat, m: int): seq<Rule>
    requires k <= |ws|
    decreases |ws| - k
  {
    if k == |ws| then []
    else if m <= MinuteNo(ws[k].local) then ws[k].rules
    else Judge(ws, k + 1, m)
  }

  function Judges(ws: seq<Wakeup>): int -> seq<Rule> { m => Judge(ws, 0, m) }

  lemma {:induction false} StartsFirst(start: int, ws: seq<Wakeup>, n: nat)
    requires Steady(start, ws) && n <= |ws|
    ensures start <= Last(start, ws, n)
  {
    if n > 0 {
      StartsFirst(start, ws, n - 1);
      assert SteadyStep(Last(start, ws, n - 1), Last(start, ws, n));
    }
  }

  lemma {:induction false} EarlierWakeups(start: int, ws: seq<Wakeup>, k: nat, n: nat)
    requires Steady(start, ws) && k <= n <= |ws|
    ensures Last(start, ws, k) <= Last(start, ws, n)
    decreases n - k
  {
    if k < n {
      EarlierWakeups(start, ws, k, n - 1);
      assert SteadyStep(Last(start, ws, n - 1), Last(start, ws, n));
    }
  }

  /** The minutes that wake-up `n` sweeps over are judged by its rules. */
  lemma {:induction false} JudgedAt(start: int, ws: seq<Wakeup>, k: nat, n: nat, m: int)
    requires Steady(start, ws) && k < n <= |ws|
    requires MinuteNo(Last(start, ws, n - 1)) < m <= MinuteNo(ws[n - 1].local)
    ensures Judge(ws, k, m) == ws[n - 1].rules
    decreases n - k
  {
    if k < n - 1 {
      EarlierWakeups(start, ws, k + 1, n - 1);
      MinuteNoMonotone(ws[k].local, Last(start, ws, n - 1));
      JudgedAt(start, ws, k + 1, n, m);
    }
  }

  /** On a steady clock the whole run is one window: every matching (minute, rule) after the start
      minute and up to the last minute fires exactly once, in minute order, judged by the rules
      configured when its minute was first reached. */
  lemma {:induction false} RunIsOneWindow(start: int, ws: seq<Wakeup>, n: nat)
    requires Steady(start, ws) && n <= |ws|
    ensures MinuteNo(start) <= MinuteNo(Last(start, ws, n))
    ensures Log(start, ws, n) == Window(Judges(ws), MinuteNo(start), MinuteNo(Last(start, ws, n)) - MinuteNo(start))
  {
    forall i | 0 < i <= n ensures Swept(start, ws, i, Judges(ws)) {
      FiresAreJudged(start, ws, i);
    }
    SweptRun(start, ws, n, Judges(ws));
  }

  /** Wake-up `n` fires exactly the window since the one before, as judged by `g`. */
  ghost predicate Swept(start: int, ws: seq<Wakeup>, n: nat, g: int -> seq<Rule>)
    requires 0 < n <= |ws|
  {
    var (b, c) := (MinuteNo(Last(start, ws, n - 1)), MinuteNo(Last(start, ws, n)));
    b <= c && Fires(Last(start, ws, n - 1), ws[n - 1]) == Window(g, b, c - b)
  }

  lemma {:induction false} SweptRun(start: int, ws: seq<Wakeup>, n: nat, g: int -> seq<Rule>)
    requires n <= |ws| && forall i :: 0 < i <= n ==> Swept(start, ws, i, g)
    ensures MinuteNo(start) <= MinuteNo(Last(start, ws, n))
    ensures Log(start, ws, n) == Window(g, MinuteNo(start), MinuteNo(Last(start, ws, n)) - MinuteNo(start))
  {
    if n > 0 {
      SweptRun(start, ws, n - 1, g);
      assert Swept(start, ws, n, g);
      var (a, b, c) := (MinuteNo(start), MinuteNo(Last(start, ws, n - 1)), MinuteNo(Last(start, ws, n)));
      WindowsJoin(g, a, b - a, c - b);
    }
  }

  lemma {:induction false} FiresAreJudged(start: int, ws: seq<Wakeup>, n: nat)
    requires Steady(start, ws) && 0 < n <= |ws|
    ensures Swept(start, ws, n, Judges(ws))
  {
    var last, w := Last(start, ws, n - 1), ws[n - 1];
    assert SteadyStep(last, Last(start, ws, n));
    MinuteNoMonotone(last, w.local);
    var (b, c) := (MinuteNo(last), MinuteNo(w.local));
    forall m | b < m <= b + (c - b) ensures Always(w.rules)(m) == Judges(ws)(m) {
      JudgedAt(start, ws, 0, n, m);
    }
    WindowAgrees(Always(w.rules), Judges(ws), b, c - b);
  }

  /** Exactly once and in order, when the configured rules never change. */
  lemma {:induction false} ExactlyOnce(start: int, ws: seq<Wakeup>, rules: seq<Rule>, f: Firing)
    requires Steady(start, ws) && forall k :: 0 <= k < |ws| ==> ws[k].rules == rules
    ensures Ascending(Log(start, ws, |ws|))
    ensures multiset(Log(start, ws, |ws|))[f] ==
            if MinuteNo(start) < f.minute <= MinuteNo(Last(start, ws, |ws|)) && Belongs(f, rules) then 1 else 0
  {
    RunIsOneWindow(start, ws, |ws|);
    var a, n := MinuteNo(start), MinuteNo(Last(start, ws, |ws|)) - MinuteNo(start);
    forall m | a < m <= a + n ensures Judges(ws)(m) == Always(rules)(m) {
      OneJudge(ws, rules, 0, m);
    }
    WindowAgrees(Judges(ws), Always(rules), a, n);
    WindowAscends(Always(rules), a, n);
    WindowHas(Always(rules), a, n, f);
    AscendingOnce(Log(start, ws, |ws|), f);
  }

  lemma {:induction false} OneJudge(ws: seq<Wakeup>, rules: seq<Rule>, k: nat, m: int)
    requires k < |ws| && m <= MinuteNo(ws[|ws| - 1].local) && forall i :: 0 <= i < |ws| ==> ws[i].rules == rules
    ensures Judge(ws, k, m) == rules
    decreases |ws| - k
  {
    if MinuteNo(ws[k].local) < m {
      OneJudge(ws, rules, k + 1, m);
    }
  }

  // ---------------------------------------------------------------- a whole day

  /** How many of the `n` minutes after minute `a` the rule matches. */
  function Hits(r: Rule, a: int, n: nat): nat {
    if n == 0 then 0 else Hits(r, a, n - 1) + (if r.Matches(a + n) then 1 else 0)
  }

  function CountIndex(fs: seq<Firing>, i: nat): nat {
    if fs == [] then 0 else CountIndex(fs[..|fs| - 1], i) + (if fs[|fs| - 1].index == i then 1 else 0)
  }

  lemma {:induction false} CountIndexJoin(a: seq<Firing>, b: seq<Firing>, i: nat)
    ensures CountIndex(a + b, i) == CountIndex(a, i) + CountIndex(b, i)
  {
    if b == [] {
      assert a + b == a;
    } else {
      var k := |b| - 1;
      CountIndexJoin(a, b[..k], i);
      assert (a + b)[..|a| + k] == a + b[..k];
    }
  }

  lemma {:induction false} CountIndexDue(rules: seq<Rule>, m: int, i: nat)
    ensures CountIndex(Due(rules, m), i) == if i < |rules| && rules[i].Matches(m) then 1 else 0
  {
    if rules != [] {
      var last := |rules| - 1;
      CountIndexDue(rules[..last], m, i);
      var end := if rules[last].Matches(m) then [Firing(m, last, rules[last])] else [];
      CountIndexJoin(Due(rules[..last], m), end, i);
      assert CountIndex(end[..0], i) == 0;
      if end != [] { assert end[..|end| - 1] == []; }
    }
  }

  lemma {:induction false} CountIndexWindow(rules: seq<Rule>, a: int, n: nat, i: nat)
    requires i < |rules|
    ensures CountIndex(Window(Always(rules), a, n), i) == Hits(rules[i], a, n)
  {
    if n > 0 {
      CountIndexWindow(rules, a, n - 1, i);
      CountIndexDue(rules, a + n, i);
      CountIndexJoin(Window(Always(rules), a, n - 1), Due(rules, a + n), i);
    }
  }

  ghost predicate Distinct(s: seq<nat>) {
    forall i, j :: 0 <= i < j < |s| ==> s[i] != s[j]
  }

  ghost predicate InRange(s: seq<nat>, bound: nat) {
    forall i :: 0 <= i < |s| ==> s[i] < bound
  }

  /** How many of the numbers below `n` occur in `s`. */
  function Present(s: seq<nat>, n: nat): nat {
    if n == 0 then 0 else Present(s, n - 1) + (if n - 1 in s then 1 else 0)
  }

  lemma {:induction false} PresentWithout(s: seq<nat>, x: nat, n: nat)
    requires x !in s
    ensures Present(s + [x], n) == Present(s, n) + (if x < n then 1 else 0)
  {
    if n > 0 {
      PresentWithout(s, x, n - 1);
      assert n - 1 in s + [x] <==> n - 1 in s || n - 1 == x;
    }
  }

  lemma {:induction false} PresentIsLength(s: seq<nat>, n: nat)
    requires Distinct(s) && InRange(s, n)
    ensures Present(s, n) == |s|
  {
    if s == [] {
      PresentNone(n);
    } else {
      var k := |s| - 1;
      assert s == s[..k] + [s[k]];
      PresentIsLength(s[..k], n);
      PresentWithout(s[..k], s[k], n);
    }
  }

  lemma {:induction false} PresentNone(n: nat)
    ensures Present([], n) == 0
  {
    if n > 0 { PresentNone(n - 1); }
  }

  predicate Plain(r: Rule) { r.enabled && r.daysOfWeek == [] }

  lemma {:induction false} PlainMatches(r: Rule, h: nat, m: int)
    requires Plain(r) && 0 <= m < 60 && h < 24
    ensures r.Matches(60 * h + m) <==> h in r.hours && m in r.minutes
  {
    MinuteOfFloor(60 * h + m);
    assert (60 * h + m) / 60 == h;
  }

  lemma {:induction false} DayApart(r: Rule, m: int)
    requires Plain(r)
    ensures r.Matches(m + DAY) == r.Matches(m)
  {
    MinuteOfFloor(m);
    MinuteOfFloor(m + DAY);
    assert (m + DAY) / 60 == m / 60 + 24;
    assert (m / 60 + 24) % 24 == m / 60 % 24;
    assert (m + DAY) % 60 == m % 60;
  }

  lemma {:induction false} HourHits(r: Rule, h: nat, n: nat)
    requires Plain(r) && h < 24 && n <= 60
    ensures Hits(r, 60 * h - 1, n) == if h in r.hours then Present(r.minutes, n) else 0
  {
    if n > 0 {
      HourHits(r, h, n - 1);
      PlainMatches(r, h, n - 1);
    }
  }

  lemma {:induction false} HitsJoin(r: Rule, a: int, n: nat, k: nat)
    ensures Hits(r, a, n + k) == Hits(r, a, n) + Hits(r, a + n, k)
  {
    if k > 0 {
      HitsJoin(r, a, n, k - 1);
      assert Hits(r, a, n + k) == Hits(r, a, n + k - 1) + (if r.Matches(a + n + k) then 1 else 0);
    }
  }

  lemma {:induction false} HoursHits(r: Rule, h: nat)
    requires Plain(r) && h <= 24
    ensures Hits(r, -1, 60 * h) == Present(r.hours, h) * Present(r.minutes, 60)
  {
    if h > 0 {
      HoursHits(r, h - 1);
      HourHits(r, h - 1, 60);
      HitsJoin(r, -1, 60 * (h - 1), 60);
      AddOne(Present(r.hours, h - 1), Present(r.minutes, 60));
    }
  }

  lemma {:induction false} AddOne(x: nat, y: nat)
    ensures (x + 1) * y == x * y + y
  {
  }

  /** Moving a one-day window by a minute loses and gains the same minute of the day. */
  lemma {:induction false} ShiftDay(r: Rule, a: int)
    requires Plain(r)
    ensures Hits(r, a + 1, DAY) == Hits(r, a, DAY)
  {
    HitsJoin(r, a, 1, DAY);
    HitsJoin(r, a, DAY, 1);
    assert Hits(r, a, 1) == if r.Matches(a + 1) then 1 else 0 by { assert Hits(r, a, 0) == 0; }
    assert Hits(r, a + DAY, 1) == if r.Matches(a + DAY + 1) then 1 else 0 by { assert Hits(r, a + DAY, 0) == 0; }
    DayApart(r, a + 1);
  }

  lemma {:induction false} AnyDay(r: Rule, a: int)
    requires Plain(r)
    ensures Hits(r, a, DAY) == Hits(r, -1, DAY)
    decreases if a < -1 then -1 - a else a + 1
  {
    if a < -1 {
      AnyDay(r, a + 1);
      ShiftDay(r, a);
    } else if a > -1 {
      AnyDay(r, a - 1);
      ShiftDay(r, a - 1);
    }
  }

  /** Every window of exactly 1440 minutes, wherever it starts, reports an enabled rule without a day
      filter once for each of its hours and minutes. */
  lemma {:induction false} OneDayOfHits(rules: seq<Rule>, i: nat, last: int, now: int)
    requires i < |rules| && Plain(rules[i])
    requires Distinct(rules[i].hours) && InRange(rules[i].hours, 24)
    requires Distinct(rules[i].minutes) && InRange(rules[i].minutes, 60)
    requires MinuteNo(now) - MinuteNo(last) == DAY
    ensures CountIndex(Window(Always(rules), MinuteNo(last), Scanned(last, now)), i) ==
            |rules[i].hours| * |rules[i].minutes|
  {
    if now <= last { MinuteNoMonotone(now, last); }
    CountIndexWindow(rules, MinuteNo(last), DAY, i);
    AnyDay(rules[i], MinuteNo(last));
    HoursHits(rules[i], 24);
    PresentIsLength(rules[i].hours, 24);
    PresentIsLength(rules[i].minutes, 60);
  }
}
