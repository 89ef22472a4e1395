/** How often a weekly rule is dispensed over an arbitrary poll schedule. */
module Weekly {
  import opened Types
  import opened RuleClock
  import opened Feeding
  import opened Scheduler
  import opened Storage

  /** The first and last time an entry was compared with the clock. */
  datatype Window = NoPoll | Polled(first: nat, last: nat)

  ghost function Polls(tr: Trace, run: Run, i: nat, k: nat): Window {
    if k == 0 then NoPoll
    else
      var w := Polls(tr, run, i, k - 1);
      if Checks(tr(k - 1), run(k - 1), i) then
        Polled(if w.NoPoll? then run(k - 1).x.now else w.first, run(k - 1).x.now)
      else w
  }

  /** How often entry `i` was dispensed in the first k steps. */
  ghost function FeedCount(tr: Trace, run: Run, i: nat, k: nat): nat {
    if k == 0 then 0
    else FeedCount(tr, run, i, k - 1) +
         (if i < |tr(k - 1).table| && Feeds(tr(k - 1), run(k - 1), i) then 1 else 0)
  }

  const MAX_GAP: nat := 60

  /** The rule was not due at the last poll, and the reload leaves it, ready, in entry `i`. */
  ghost predicate ReloadsQuietly(tr: Trace, run: Run, i: nat, r: Rule, k: nat) {
    && i < |tr(k + 1).table| && tr(k + 1).table[i].rule == r && tr(k + 1).table[i].state == Ready
    && (Polls(tr, run, i, k).Polled? ==> !Due(r, Polls(tr, run, i, k).last / 60))
  }

  /**
   Up to step n entry `i` is checked with gaps up to `gap` seconds, first outside a due minute, and reloads leave its
   rule in place and come after polls at which it was not due.
   */
  ghost predicate Watched(tr: Trace, run: Run, i: nat, r: Rule, n: nat, gap: nat) {
    forall k: nat {:trigger run(k)} :: k < n ==>
      && (Reloads(tr(k), run(k)) ==> ReloadsQuietly(tr, run, i, r, k))
      && (Checks(tr(k), run(k), i) ==>
            var now := run(k).x.now;
            match Polls(tr, run, i, k)
            case NoPoll => !Due(r, now / 60)
            case Polled(_, last) => last <= now <= last + gap)
  }

  /** A valid weekly rule at rest in entry `i`. */
  ghost predicate Starts(a: App, i: nat, r: Rule) {
    && i < |a.table| && a.table[i].rule == r && a.table[i].state != Waiting
    && ValidPayload(r) && r.period == WEEKLY
  }

  /** What is known of the entry after the checks of a window. */
  ghost predicate Tracks(e: Entry, r: Rule, w: Window, fed: nat) {
    && e.rule == r
    && match w
       case NoPoll => fed == 0 && e.state != Waiting
       case Polled(first, last) =>
         && first <= last
         && fed + (if e.state == Waiting then 1 else 0) == DueMinutes(r, first / 60 + 1, last / 60 + 1)
         && (if Due(r, last / 60) then e.state != Ready else e.state == Ready)
  }

  /** A check at most 60 s after the last one sees the same minute or the next. */
  lemma CheckTracks(e: Entry, r: Rule, w: Window, fed: nat, x: Input)
    requires ValidPayload(r) && r.period == WEEKLY && Tracks(e, r, w, fed) && e.state != Waiting
    requires match w
             case NoPoll => !Due(r, x.now / 60)
             case Polled(_, last) => last <= x.now <= last + 60
    ensures var first := if w.NoPoll? then x.now else w.first;
            Tracks(SelectEntry(e, x.Clock()), r, Polled(first, x.now), fed)
  {
    MatchesIffDue(r, x.now, x.date);
    match w
    case NoPoll =>
      assert DueMinutes(r, x.now / 60 + 1, x.now / 60 + 1) == 0;
    case Polled(first, last) =>
      var m := x.now / 60;
      assert m == last / 60 || m == last / 60 + 1;
      if m != last / 60 {
        assert DueMinutes(r, first / 60 + 1, m + 1) == DueMinutes(r, first / 60 + 1, m) + (if Due(r, m) then 1 else 0);
        if Due(r, last / 60) {
          NeverTwiceInARow(r, last / 60);
        }
      }
  }

  lemma StartTracks(a: App, i: nat, r: Rule)
    requires Starts(a, i, r)
    ensures Tracks(a.table[i], r, NoPoll, 0)
  {
  }

  lemma FeedTracks(e: Entry, r: Rule, w: Window, fed: nat)
    requires Tracks(e, r, w, fed) && e.state == Waiting
    ensures Tracks(e.(state := Executed), r, w, fed + 1)
  {
    hide Due, DueMinutes;
  }

  /** A reload outside a due minute loses and repeats nothing. */
  lemma ReloadTracks(e: Entry, f: Entry, r: Rule, w: Window, fed: nat)
    requires Tracks(e, r, w, fed) && f.rule == r && f.state == Ready
    requires w.Polled? ==> !Due(r, w.last / 60)
    ensures Tracks(f, r, w, fed)
  {
    hide Due, DueMinutes;
  }

  lemma {:induction false} EntryTracks(tr: Trace, run: Run, repaired: bool, i: nat, r: Rule, n: nat)
    requires Behavior(tr, run, repaired) && Quiet(tr(0)) && Starts(tr(0), i, r) && Watched(tr, run, i, r, n, MAX_GAP)
    ensures i < |tr(n).table| && Tracks(tr(n).table[i], r, Polls(tr, run, i, n), FeedCount(tr, run, i, n))
  {
    hide Step, SelectEntry, DueMinutes, Due, Tracks;
    var _ := run(n);
    if n == 0 {
      StartTracks(tr(0), i, r);
    } else {
      EntryTracks(tr, run, repaired, i, r, n - 1);
      NoWaitingAtRest(tr, run, repaired, n - 1);
      TrackedStep(tr, run, repaired, i, r, n - 1);
    }
  }

  lemma TrackedStep(tr: Trace, run: Run, repaired: bool, i: nat, r: Rule, k: nat)
    requires Behavior(tr, run, repaired) && ValidPayload(r) && r.period == WEEKLY
    requires Watched(tr, run, i, r, k + 1, MAX_GAP) && Quiet(tr(k))
    requires i < |tr(k).table| && Tracks(tr(k).table[i], r, Polls(tr, run, i, k), FeedCount(tr, run, i, k))
    ensures i < |tr(k + 1).table|
    ensures Tracks(tr(k + 1).table[i], r, Polls(tr, run, i, k + 1), FeedCount(tr, run, i, k + 1))
  {
    hide Step, SelectEntry, DueMinutes, Due, Tracks, ValidPayload;
    var a, l, w, fed := tr(k), run(k), Polls(tr, run, i, k), FeedCount(tr, run, i, k);
    var _ := run(k + 1);
    assert tr(k + 1) == Step(a, l, repaired) && WellFormed(a);
    assert a.table[i].rule == r by { TracksRule(a.table[i], r, w, fed); }
    if Reloads(a, l) {
      assert ReloadsQuietly(tr, run, i, r, k);
      ReloadTracks(a.table[i], tr(k + 1).table[i], r, w, fed);
    } else {
      EntryStep(a, l, repaired, i);
      if Checks(a, l, i) {
        CheckTracks(a.table[i], r, w, fed, l.x);
      } else if Feeds(a, l, i) {
        FeedTracks(a.table[i], r, w, fed);
      }
    }
  }

  lemma TracksRule(e: Entry, r: Rule, w: Window, fed: nat)
    requires Tracks(e, r, w, fed)
    ensures e.rule == r
  {
  }

  /** At rest the rule was dispensed once for every due minute after the first check, up to the last check. */
  lemma FedOncePerDueMinute(tr: Trace, run: Run, repaired: bool, i: nat, r: Rule, n: nat)
    requires Behavior(tr, run, repaired) && Quiet(tr(0)) && Starts(tr(0), i, r) && Watched(tr, run, i, r, n, MAX_GAP)
    requires tr(n).phase != PROCESS && Polls(tr, run, i, n).Polled?
    ensures var w := Polls(tr, run, i, n);
            FeedCount(tr, run, i, n) == DueMinutes(r, w.first / 60 + 1, w.last / 60 + 1)
  {
    hide Step, Due;
    EntryTracks(tr, run, repaired, i, r, n);
    NoWaitingAtRest(tr, run, repaired, n);
  }

  /** Over whole weeks the rule is dispensed exactly as often as its mask has days. */
  lemma WeeklyExactly(tr: Trace, run: Run, repaired: bool, i: nat, r: Rule, n: nat, weeks: nat)
    requires Behavior(tr, run, repaired) && Quiet(tr(0)) && Starts(tr(0), i, r) && Watched(tr, run, i, r, n, MAX_GAP)
    requires tr(n).phase != PROCESS
    requires var w := Polls(tr, run, i, n);
             w.Polled? && w.last / 60 == w.first / 60 + weeks * MINUTES_PER_WEEK
    ensures FeedCount(tr, run, i, n) == weeks * PopCount(r.weekDays)
  {
    hide Step, Due, DueMinutes, PopCount;
    FedOncePerDueMinute(tr, run, repaired, i, r, n);
    var w := Polls(tr, run, i, n);
    AnyWeeks(r, w.first / 60 + 1, w.last / 60 + 1, weeks);
  }

  // ---- the longest gap ----

  /** What follows step `from`. */
  function From<T>(f: nat -> T, from: nat): nat -> T {
    (k: nat) => f(from + k)
  }

  /** Watched with that gap from step `from` on, n steps later a weekly rule's dispenses are not its due minutes. */
  ghost predicate Miscounts(tr: Trace, run: Run, from: nat, i: nat, r: Rule, n: nat, gap: nat) {
    var tail, labels := From(tr, from), From(run, from);
    && Starts(tail(0), i, r) && Watched(tail, labels, i, r, n, gap) && tail(n).phase != PROCESS
    && var w := Polls(tail, labels, i, n);
       w.Polled? && FeedCount(tail, labels, i, n) != DueMinutes(r, w.first / 60 + 1, w.last / 60 + 1)
  }

  /** In every run from the start of the device a weekly rule watched with that gap is fed once per due minute. */
  ghost predicate AlwaysExact(gap: nat, repaired: bool) {
    forall tr: Trace, run: Run, cells: Cells, slots: nat, answers: nat -> bool, from: nat, i: nat, r: Rule, n: nat
        {:trigger Behavior(tr, run, repaired), Boot(cells, slots, answers), Miscounts(tr, run, from, i, r, n, gap)} ::
      1 <= slots < 0x100 && Behavior(tr, run, repaired) && tr(0) == Boot(cells, slots, answers) ==>
        !Miscounts(tr, run, from, i, r, n, gap)
  }

  /** A daily rule for one minute past midnight. */
  const SKIPPED: Rule := Rule(0, 0, 0, 0, 1, WEEKLY, 0x7F, 1)

  /** Polls one second before that minute and one minute after it began, with an IDLE turn between. */
  function LatePoll(k: nat): Label {
    Turn(Input(if k < 3 then 59 else 120, Date(0, 0, 0), _ => 1, _ => 0, _ => 0))
  }

  lemma SkippedIsDueAt(m: nat)
    requires m < MINUTES_PER_DAY
    ensures Due(SKIPPED, m) <==> m == 1
  {
    hide Bit;
    assert m / MINUTES_PER_DAY == 0;
    EveryDay(0x7F, 4);
  }

  lemma SkippedIsDueOnce(lo: nat, hi: nat)
    requires lo == 1 && hi == 3
    ensures DueMinutes(SKIPPED, lo, hi) == 1
  {
    hide Due;
    SkippedIsDueAt(hi - 1);
    SkippedIsDueAt(hi - 2);
    assert DueMinutes(SKIPPED, lo, hi - 2) == 0;
    assert DueMinutes(SKIPPED, lo, hi - 1) == 1;
  }

  lemma EveryDay(mask: nat, d: nat)
    requires mask == 0x7F && d == 4
    ensures Bit(mask, d)
  {
    assert Bit(7, 0);
    assert Bit(15, 1);
    assert Bit(31, 2);
    assert Bit(63, 3);
  }

  /** The run of a device that stores only that rule, from its start. */
  lemma LatePollRun(repaired: bool) returns (tr: Trace, run: Run)
    ensures Behavior(tr, run, repaired) && tr(0) == Boot(Stocked(1, SKIPPED), 1, _ => true)
    ensures forall k: nat :: run(k) == LatePoll(k)
    ensures Skipping(tr(2)) && Skipping(tr(4))
    ensures tr(3) == tr(2).(phase := IDLE) && tr(5) == tr(4).(phase := IDLE)
  {
    hide Due, Deletions, Bit, ReadRules, Select, Selected, Processed, Amounts, Matches, Init, Stocked, Slots;
    SkippedIsDueAt(0);
    SkippedIsDueAt(2);
    run := (k: nat) => LatePoll(k);
    tr := EveryScheduleRuns(Boot(Stocked(1, SKIPPED), 1, _ => true), run, repaired);
    MatchesIffDue(SKIPPED, 59, Date(0, 0, 0));
    MatchesIffDue(SKIPPED, 120, Date(0, 0, 0));
    StockedTable(1, SKIPPED, tr(0).table);
    assert run(0).Turn? && tr(0 + 1) == Step(tr(0), run(0), repaired);
    assert run(1).Turn? && tr(1 + 1) == Step(tr(1), run(1), repaired);
    assert run(2).Turn? && tr(2 + 1) == Step(tr(2), run(2), repaired);
    LatePollStep(tr(2), run(2).x, repaired);
    assert run(3).Turn? && tr(3 + 1) == Step(tr(3), run(3), repaired);
    assert run(4).Turn? && tr(4 + 1) == Step(tr(4), run(4), repaired);
    LatePollStep(tr(4), run(4).x, repaired);
  }

  /** About to poll that one rule. */
  ghost predicate Skipping(a: App) {
    && WellFormed(a) && a.phase == CHECK_RULES && a.available && !a.shouldUpdate
    && |a.table| == 1 && a.table[0].rule == SKIPPED && a.table[0].state == Ready
  }

  /** Those two polls dispense nothing, although the rule was due between them. */
  lemma LatePollMisses(repaired: bool, gap: nat) returns (tr: Trace, run: Run)
    requires gap > MAX_GAP
    ensures Behavior(tr, run, repaired) && tr(0) == Boot(Stocked(1, SKIPPED), 1, _ => true)
    ensures Miscounts(tr, run, 2, 0, SKIPPED, 3, gap)
  {
    hide Due, Behavior, DueMinutes, Boot;
    SkippedIsDueAt(0);
    SkippedIsDueOnce(59 / 60 + 1, 120 / 60 + 1);
    tr, run := LatePollRun(repaired);
    LatePollTail(From(tr, 2), From(run, 2), gap);
  }

  lemma LatePollTail(tr: Trace, run: Run, gap: nat)
    requires gap > MAX_GAP && (forall k: nat :: run(k) == LatePoll(k + 2)) && !Due(SKIPPED, 0)
    requires Skipping(tr(0)) && Skipping(tr(2)) && tr(1) == tr(0).(phase := IDLE)
    ensures Watched(tr, run, 0, SKIPPED, 3, gap)
    ensures Polls(tr, run, 0, 3) == Polled(59, 120) && FeedCount(tr, run, 0, 3) == 0
  {
    hide Due;
    assert Bound(run(0).x.readings, 1, 0) == 1 && Bound(run(2).x.readings, 1, 0) == 1;
    assert Polls(tr, run, 0, 0) == NoPoll;
    assert Polls(tr, run, 0, 1) == Polled(59, 59);
    assert Polls(tr, run, 0, 2) == Polled(59, 59);
    assert FeedCount(tr, run, 0, 2) == 0;
  }

  lemma LatePollStep(a: App, x: Input, repaired: bool)
    requires Skipping(a) && !Matches(SKIPPED, x.Clock()) && forall j: nat :: x.readings(j) == 1
    ensures Tick(a, x, repaired) == a.(phase := IDLE)
  {
    hide Matches;
    assert Bound(x.readings, 1, 0) == 1;
    assert Select(a.table, 1, x.Clock()) == a.table;
    assert Selected(a.table, 0, x.Clock()) == 0;
    assert Selected(a.table, 1, x.Clock()) == 0;
  }

  /** What follows a step of a run from the start is a run from a state at rest. */
  lemma TailBehaves(tr: Trace, run: Run, repaired: bool, from: nat)
    requires Behavior(tr, run, repaired) && Quiet(tr(0))
    ensures Behavior(From(tr, from), From(run, from), repaired) && Quiet(From(tr, from)(0))
  {
    hide Step;
    NoWaitingAtRest(tr, run, repaired, from);
    NoWaitingAtRest(tr, run, repaired, 0);
    var tail, labels := From(tr, from), From(run, from);
    var n := |tr(0).table|;
    forall k: nat
      ensures WellFormed(tail(k)) && |tail(k).table| == n && tail(k + 1) == Step(tail(k), labels(k), repaired)
    {
      var _ := run(from + k);
      assert tr(from + k + 1) == Step(tr(from + k), run(from + k), repaired);
    }
  }

  /** 60 s is the largest gap with which no weekly dispense is ever lost, in all runs from the start of the device. */
  lemma ExactIffGap(gap: nat, repaired: bool)
    ensures AlwaysExact(gap, repaired) <==> gap <= MAX_GAP
  {
    hide Behavior, Quiet, Starts, Watched, Polls, FeedCount, DueMinutes, Due, Stocked, From;
    if gap <= MAX_GAP {
      forall tr: Trace, run: Run, cells: Cells, slots: nat, answers: nat -> bool, from: nat, i: nat, r: Rule, n: nat
        | 1 <= slots < 0x100 && Behavior(tr, run, repaired) && tr(0) == Boot(cells, slots, answers)
        ensures !Miscounts(tr, run, from, i, r, n, gap)
      {
        BootIsQuiet(cells, slots, answers);
        TailBehaves(tr, run, repaired, from);
        if Miscounts(tr, run, from, i, r, n, gap) {
          WatchedMore(From(tr, from), From(run, from), i, r, n, gap);
          FedOncePerDueMinute(From(tr, from), From(run, from), repaired, i, r, n);
        }
      }
    } else {
      var tr, run := LatePollMisses(repaired, gap);
    }
  }

  lemma BootIsQuiet(cells: Cells, n: nat, answers: nat -> bool)
    requires 1 <= n < 0x100
    ensures Quiet(Boot(cells, n, answers))
  {
  }

  lemma WatchedMore(tr: Trace, run: Run, i: nat, r: Rule, n: nat, gap: nat)
    requires Watched(tr, run, i, r, n, gap) && gap <= MAX_GAP
    ensures Watched(tr, run, i, r, n, MAX_GAP)
  {
    hide Due, Checks, Polls;
  }

  /** With an undisturbed slot count a matching poll selects an entry exactly if it lies below the live count. */
  lemma VisibleIff(a: App, x: Input, repaired: bool, i: nat)
    requires WellFormed(a) && a.phase == CHECK_RULES && a.available && i < |a.table|
    requires a.table[i].state == Ready && Matches(a.table[i].rule, x.Clock())
    requires forall j: nat :: x.readings(j) == Scheduler.Count(a.sched.bits)
    ensures Tick(a, x, repaired).table[i].state == Waiting <==> i < Scheduler.Count(a.sched.bits)
  {
    var p := Bound(x.readings, |a.table|, 0);
    assert p > 0 ==> p - 1 < x.readings(p - 1);
  }

  lemma {:induction false} CountShrinks(bits: seq<bool>, k: nat, m: nat)
    requires k < |bits| && bits[k] && m <= |bits|
    ensures |Scheduler.SlotsUpTo(bits, m)| == |Scheduler.SlotsUpTo(bits[k := false], m)| + (if k < m then 1 else 0)
  {
    if m > 0 {
      CountShrinks(bits, k, m - 1);
    }
  }

  /**
   The counterexample to exact counting without the watching hypothesis: `before` is the store whose n rules fill
   the table; once a one-shot rule of it was deleted, the last loaded entry is skipped although its rule matches.
   */
  lemma DeletionHidesLastEntry(before: Scheduler.Sched, slot: byte, repaired: bool, a: App, x: Input)
    requires slot < |before.bits| && before.bits[slot] && Scheduler.DeleteRule(before, slot, 0, repaired).0 == 0
    requires WellFormed(a) && a.phase == CHECK_RULES && a.available
    requires a.sched == Scheduler.DeleteRule(before, slot, 0, repaired).1
    requires forall j: nat :: x.readings(j) == Scheduler.Count(a.sched.bits)
    ensures var last := Scheduler.Count(before.bits) - 1;
            && 0 <= last < |a.table|
            && (a.table[last].state == Ready && Matches(a.table[last].rule, x.Clock()) ==>
                  Tick(a, x, repaired).table[last] == a.table[last])
  {
    CountShrinks(before.bits, slot, |before.bits|);
    var last := Scheduler.Count(before.bits) - 1;
    if a.table[last].state == Ready && Matches(a.table[last].rule, x.Clock()) {
      VisibleIff(a, x, repaired, last);
    }
  }
}
