/** The schedule in calendar terms. Minute 0 is a Thursday midnight, so day 4 is a Monday, the weekday with
    number 0. */
module Calendars {
  import opened Wrappers
  import opened Schedules

  const WEEK: nat := 7 * 1440

  /** A rule is due at a minute exactly if it is enabled and lists its hour, its minute and, unless it lists no
      day, its weekday. */
  lemma {:induction false} DueOnCalendar(rules: seq<Rule>, m: int, i: nat)
    requires i < |rules|
    ensures Firing(m, i, rules[i]) in Due(rules, m) <==>
      && rules[i].enabled && m / 60 % 24 in rules[i].hours && m % 60 in rules[i].minutes
      && (rules[i].daysOfWeek == [] || (m / 1440 - 4) % 7 in rules[i].daysOfWeek)
  {
    DueHas(rules, m, Firing(m, i, rules[i]));
    MinuteOfFloor(m);
    assert (m / 1440 + 3) % 7 == (m / 1440 - 4) % 7;
  }

  /** A rule for one weekday is due on that day only. */
  lemma {:induction false} OneWeekday(rules: seq<Rule>, m: int, i: nat, day: nat)
    requires i < |rules| && rules[i].daysOfWeek == [day] && Firing(m, i, rules[i]) in Due(rules, m)
    ensures (m / 1440 - 4) % 7 == day
  {
    DueOnCalendar(rules, m, i);
  }

  /** Whatever the clock does and however the rules change, no wake-up fires a disabled rule, nor any rule at a
      minute it does not list. */
  lemma {:induction false} FiresListedOnly(start: int, ws: seq<Wakeup>, n: nat, f: Firing)
    requires n <= |ws| && f in Log(start, ws, n)
    ensures f.rule.enabled && f.minute / 60 % 24 in f.rule.hours && f.minute % 60 in f.rule.minutes
    ensures f.rule.daysOfWeek == [] || (f.minute / 1440 - 4) % 7 in f.rule.daysOfWeek
  {
    var (last, w) := (Last(start, ws, n - 1), ws[n - 1]);
    if f in Log(start, ws, n - 1) {
      FiresListedOnly(start, ws, n - 1, f);
    } else {
      assert f in Fires(last, w);
      WindowHas(Always(w.rules), MinuteNo(last), Scanned(last, w.local), f);
      DueHas(w.rules, f.minute, f);
      DueOnCalendar(w.rules, f.minute, f.index);
    }
  }

  // ----- a whole week -----

  predicate Lists(r: Rule, day: nat) { r.daysOfWeek == [] || day in r.daysOfWeek }

  lemma {:induction false} MatchesAt(r: Rule, day: nat, h: nat, m: nat)
    requires h < 24 && m < 60
    ensures r.Matches(1440 * day + 60 * h + m) <==>
      r.enabled && h in r.hours && m in r.minutes && Lists(r, (day + 3) % 7)
  {
    var t := 1440 * day + 60 * h + m;
    MinuteOfFloor(t);
    assert t / 60 == 24 * day + h && t % 60 == m && t / 1440 == day;
    assert (24 * day + h) % 24 == h;
  }

  lemma {:induction false} HourOfDay(r: Rule, day: nat, h: nat, n: nat)
    requires r.enabled && h < 24 && n <= 60
    ensures Hits(r, 1440 * day + 60 * h - 1, n) ==
            if h in r.hours && Lists(r, (day + 3) % 7) then Present(r.minutes, n) else 0
  {
    if n > 0 {
      HourOfDay(r, day, h, n - 1);
      MatchesAt(r, day, h, n - 1);
    }
  }

  lemma {:induction false} HoursOfDay(r: Rule, day: nat, h: nat)
    requires r.enabled && h <= 24
    ensures Hits(r, 1440 * day - 1, 60 * h) ==
            if Lists(r, (day + 3) % 7) then Present(r.hours, h) * Present(r.minutes, 60) else 0
  {
    if h > 0 {
      HoursOfDay(r, day, h - 1);
      HourOfDay(r, day, h - 1, 60);
      HitsJoin(r, 1440 * day - 1, 60 * (h - 1), 60);
      AddOne(Present(r.hours, h - 1), Present(r.minutes, 60));
    }
  }

  /** How many of the first `n` days from minute 0 on the rule lists. */
  function DaysListed(r: Rule, n: nat): nat {
    if n == 0 then 0 else DaysListed(r, n - 1) + (if Lists(r, (n - 1 + 3) % 7) then 1 else 0)
  }

  lemma {:induction false} DaysFromZero(r: Rule, n: nat)
    requires r.enabled
    ensures Hits(r, -1, 1440 * n) == DaysListed(r, n) * (Present(r.hours, 24) * Present(r.minutes, 60))
  {
    if n > 0 {
      DaysFromZero(r, n - 1);
      HoursOfDay(r, n - 1, 24);
      HitsJoin(r, -1, 1440 * (n - 1), 1440);
      var p := Present(r.hours, 24) * Present(r.minutes, 60);
      AddOne(DaysListed(r, n - 1), p);
    }
  }

  function One(b: bool): nat { if b then 1 else 0 }

  lemma {:induction false} PresentNext(s: seq<nat>, n: nat)
    ensures Present(s, n + 1) == Present(s, n) + One(n in s)
  {
  }

  lemma {:induction false} ListedNext(r: Rule, n: nat)
    ensures DaysListed(r, n + 1) == DaysListed(r, n) + One(Lists(r, (n + 3) % 7))
  {
  }

  lemma {:induction false} SevenPresent(s: seq<nat>)
    ensures Present(s, 7) ==
      One(0 in s) + One(1 in s) + One(2 in s) + One(3 in s) + One(4 in s) + One(5 in s) + One(6 in s)
  {
    for n := 0 to 7
      invariant Present(s, n) ==
        (if n > 0 then One(0 in s) else 0) + (if n > 1 then One(1 in s) else 0) + (if n > 2 then One(2 in s) else 0) +
        (if n > 3 then One(3 in s) else 0) + (if n > 4 then One(4 in s) else 0) + (if n > 5 then One(5 in s) else 0) +
        (if n > 6 then One(6 in s) else 0)
    {
      PresentNext(s, n);
    }
  }

  /** The week from a Thursday on. */
  lemma {:induction false} SevenListed(r: Rule)
    ensures DaysListed(r, 7) == One(Lists(r, 3)) + One(Lists(r, 4)) + One(Lists(r, 5)) + One(Lists(r, 6)) +
                                One(Lists(r, 0)) + One(Lists(r, 1)) + One(Lists(r, 2))
  {
    for n := 0 to 7
      invariant DaysListed(r, n) ==
        (if n > 0 then One(Lists(r, 3)) else 0) + (if n > 1 then One(Lists(r, 4)) else 0) +
        (if n > 2 then One(Lists(r, 5)) else 0) + (if n > 3 then One(Lists(r, 6)) else 0) +
        (if n > 4 then One(Lists(r, 0)) else 0) + (if n > 5 then One(Lists(r, 1)) else 0) +
        (if n > 6 then One(Lists(r, 2)) else 0)
    {
      ListedNext(r, n);
    }
  }

  lemma {:induction false} Later(m: int)
    ensures (m + WEEK) / 60 == m / 60 + 168 && (m + WEEK) % 60 == m % 60 && (m + WEEK) / 1440 == m / 1440 + 7
  {
  }

  lemma {:induction false} SameHourAndDay(h: int, d: int)
    ensures (h + 168) % 24 == h % 24 && (d + 7 + 3) % 7 == (d + 3) % 7
  {
  }

  lemma {:induction false} WeekApart(r: Rule, m: int)
    ensures r.Matches(m + WEEK) == r.Matches(m)
  {
    MinuteOfFloor(m);
    MinuteOfFloor(m + WEEK);
    Later(m);
    SameHourAndDay(m / 60, m / 1440);
  }

  /** Moving a one-week window by a minute loses and gains the same minute of the week. */
  lemma {:induction false} ShiftWeek(r: Rule, a: int)
    ensures Hits(r, a + 1, WEEK) == Hits(r, a, WEEK)
  {
    HitsJoin(r, a, 1, WEEK);
    HitsJoin(r, a, WEEK, 1);
    OneHit(r, a);
    OneHit(r, a + WEEK);
    WeekApart(r, a + 1);
  }

  lemma {:induction false} OneHit(r: Rule, a: int)
    ensures Hits(r, a, 1) == if r.Matches(a + 1) then 1 else 0
  {
    assert Hits(r, a, 0) == 0;
  }

  lemma {:induction false} AnyWeek(r: Rule, a: int)
    ensures Hits(r, a, WEEK) == Hits(r, -1, WEEK)
    decreases if a < -1 then -1 - a else a + 1
  {
    if a < -1 {
      AnyWeek(r, a + 1);
      ShiftWeek(r, a);
    } else if a > -1 {
      AnyWeek(r, a - 1);
      ShiftWeek(r, a - 1);
    }
  }

  function DaysAWeek(r: Rule): nat { if r.daysOfWeek == [] then 7 else |r.daysOfWeek| }

  ghost predicate WellListed(r: Rule) {
    && Distinct(r.hours) && InRange(r.hours, 24) && Distinct(r.minutes) && InRange(r.minutes, 60)
    && Distinct(r.daysOfWeek) && InRange(r.daysOfWeek, 7)
  }

  lemma {:induction false} WeekOfHits(r: Rule, a: int)
    requires WellListed(r)
    ensures Hits(r, a, WEEK) == if r.enabled then DaysAWeek(r) * (|r.hours| * |r.minutes|) else 0
  {
    if r.enabled {
      AnyWeek(r, a);
      DaysFromZero(r, 7);
      SevenListed(r);
      SevenPresent(r.daysOfWeek);
      PresentIsLength(r.daysOfWeek, 7);
      PresentIsLength(r.hours, 24);
      PresentIsLength(r.minutes, 60);
    } else {
      NoHits(r, a, WEEK);
    }
  }

  lemma {:induction false} NoHits(r: Rule, a: int, n: nat)
    requires !r.enabled
    ensures Hits(r, a, n) == 0
  {
    if n > 0 { NoHits(r, a, n - 1); }
  }

  /** A run of exactly seven days, wherever it starts and however the wake-ups divide it, fires an enabled rule
      once for each of its days, hours and minutes, and a disabled one never. */
  lemma {:induction false} OneWeekOfFirings(start: int, ws: seq<Wakeup>, rules: seq<Rule>, i: nat)
    requires Steady(start, ws) && forall k :: 0 <= k < |ws| ==> ws[k].rules == rules
    requires i < |rules| && WellListed(rules[i])
    requires MinuteNo(Last(start, ws, |ws|)) - MinuteNo(start) == 7 * 1440
    ensures CountIndex(Log(start, ws, |ws|), i) ==
            if rules[i].enabled then DaysAWeek(rules[i]) * (|rules[i].hours| * |rules[i].minutes|) else 0
  {
    var (a, n) := (MinuteNo(start), 7 * 1440);
    RunIsOneWindow(start, ws, |ws|);
    forall m | a < m <= a + n ensures Judges(ws)(m) == Always(rules)(m) {
      OneJudge(ws, rules, 0, m);
    }
    WindowAgrees(Judges(ws), Always(rules), a, n);
    CountIndexWindow(rules, a, n, i);
    WeekOfHits(rules[i], a);
  }
}
