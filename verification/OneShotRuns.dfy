/** Runs of one-shot rules from the start of the device: which polls cannot select a stale table entry. */
module OneShotRuns {
  import opened Types
  import opened RuleCodec
  import opened RuleClock
  import opened Storage
  import opened Scheduler
  import opened Feeding
  import opened OneShot

  // ---- polls of a table that is at least as long as the store ----

  predicate AddsRules(l: Label) { l.Store? && (l.op.WriteOp? || l.op.InitOp?) }

  /** Rules may have been added since the last load. */
  ghost function Dirty(tr: TTrace, run: Run, k: nat): bool {
    if k == 0 then false
    else if run(k - 1).Turn? && tr(k - 1).app.phase == LOAD_RULES then false
    else AddsRules(run(k - 1)) || Dirty(tr, run, k - 1)
  }

  /** A poll reads at most the live count, and no rule was added since the last load. */
  ghost predicate Clean(tr: TTrace, run: Run, k: nat)
    requires run(k).Turn?
  {
    !Dirty(tr, run, k) && forall j: nat :: run(k).x.readings(j) <= Count(tr(k).app.sched.bits)
  }

  lemma {:induction false} CountMonotone(a: seq<bool>, b: seq<bool>, m: nat)
    requires m <= |a| == |b| && forall i :: 0 <= i < |a| && a[i] ==> b[i]
    ensures |SlotsUpTo(a, m)| <= |SlotsUpTo(b, m)|
  {
    if m > 0 {
      CountMonotone(a, b, m - 1);
    }
  }

  /** While rules are available and none was added since the load, every live rule is among the loaded entries. */
  ghost predicate Covered(t: Tracked, dirty: bool) {
    && NoEmptyCell(t.app.sched.cells)
    && (t.app.available && !dirty ==> Count(t.app.sched.bits) <= t.loaded)
  }

  lemma LoadCovers(t: Tracked, x: Input, repaired: bool)
    requires Shaped(t) && t.app.phase == LOAD_RULES && NoEmptyCell(t.app.sched.cells)
    ensures Covered(TStep(t, Turn(x), repaired), false)
  {
    hide Loaded, SlotsUpTo;
    var slots := Slots(t.app.sched.bits);
    var m := Readable(t.app.sched, slots, x.faults);
    assert m < |slots| ==> ReadSlot(t.app.sched, slots[m], x.faults) < 0;
  }

  /** Nothing but an addition or a restart sets a bit. */
  lemma BitsOnlyFall(t: Tracked, l: Label, repaired: bool)
    requires Shaped(t) && !AddsRules(l) && !l.Restart?
    ensures var u := TStep(t, l, repaired);
            forall i :: 0 <= i < |u.app.sched.bits| && u.app.sched.bits[i] ==> t.app.sched.bits[i]
  {
    hide ReadRules, Amounts, Select, Selected, Processed, Slots;
    if l.Turn? && t.app.phase == PROCESS {
      DeletionsOnlyClear(t.app.sched, t.app.table, l.x.erases, |t.app.table|, repaired);
    }
  }

  lemma CellsStayNonempty(t: Tracked, l: Label, repaired: bool)
    requires Shaped(t) && NoEmptyCell(t.app.sched.cells)
    ensures NoEmptyCell(TStep(t, l, repaired).app.sched.cells)
  {
    hide ReadRules, Amounts, Select, Selected, Processed, SlotsUpTo, Deletions, Apply;
    match l
    case Turn(x) => DeletionsOnlyClear(t.app.sched, t.app.table, x.erases, |t.app.table|, repaired);
    case Store(op) => ApplyKeepsNonempty(t.app.sched, op, repaired);
    case _ =>
  }

  lemma ApplyKeepsNonempty(s: Sched, op: Op, repaired: bool)
    requires NoEmptyCell(s.cells)
    ensures NoEmptyCell(Apply(s, op, repaired).cells)
  {
    if op.WriteOp? {
      var k := FirstFit(s.bits, |op.data|, op.writes, 0);
    }
  }

  lemma StepKeepsCovered(t: Tracked, l: Label, repaired: bool, dirty: bool)
    requires Shaped(t) && Covered(t, dirty)
    ensures Covered(TStep(t, l, repaired),
                    !(l.Turn? && t.app.phase == LOAD_RULES) && (AddsRules(l) || dirty))
  {
    hide ReadRules, Amounts, Select, Selected, Processed, SlotsUpTo, Deletions, Apply, NoEmptyCell;
    CellsStayNonempty(t, l, repaired);
    if l.Turn? && t.app.phase == LOAD_RULES {
      LoadCovers(t, l.x, repaired);
    } else if !AddsRules(l) && !l.Restart? {
      BitsOnlyFall(t, l, repaired);
      CountMonotone(TStep(t, l, repaired).app.sched.bits, t.app.sched.bits, |t.app.sched.bits|);
    }
  }

  lemma {:induction false} CoveredAlways(tr: TTrace, run: Run, repaired: bool, k: nat)
    requires Free(tr, run, repaired) && !tr(0).app.available && NoEmptyCell(tr(0).app.sched.cells)
    ensures Covered(tr(k), Dirty(tr, run, k))
  {
    hide TStep, Step, AddsRules, NoEmptyCell, Count;
    if k > 0 {
      CoveredAlways(tr, run, repaired, k - 1);
      StepKeepsCovered(tr(k - 1), run(k - 1), repaired, Dirty(tr, run, k - 1));
    }
  }

  lemma StartView(cells: Cells, n: nat, answers: nat -> bool)
    requires 1 <= n < 0x100
    ensures var t := Start(cells, n, answers);
            && t.app.phase == INIT && !t.app.available && t.app.sched.cells == cells
            && |t.app.sched.bits| == n
            && (forall i :: 0 <= i < n ==> t.app.sched.bits[i] == (answers(i) && RULES_ID_BASE + i in cells))
            && t.gen == seq(n, _ => 0) && t.tableGen == seq(n, _ => 0)
  {
  }

  /** A clean poll never looks past the entries of the last reading. */
  lemma CleanPollIsWithin(tr: TTrace, run: Run, repaired: bool, k: nat)
    requires Free(tr, run, repaired) && !tr(0).app.available && NoEmptyCell(tr(0).app.sched.cells)
    requires Polling(tr(k), run(k)) && Clean(tr, run, k)
    ensures Bound(run(k).x.readings, |tr(k).app.table|, 0) <= tr(k).loaded
  {
    hide TStep, Step, Count;
    CoveredAlways(tr, run, repaired, k);
    var p := Bound(run(k).x.readings, |tr(k).app.table|, 0);
    assert p > 0 ==> p - 1 < run(k).x.readings(p - 1);
  }

  // ---- polls after a reading no shorter than any before ----

  /** What RAM holds after a reset. */
  const BLANK: Rule := Rule(0, 0, 0, 0, 0, WEEKLY, 0, 0)

  lemma {:induction false} NoBit(mask: nat, d: nat)
    requires mask == 0
    ensures !Bit(mask, d)
  {
    if d > 0 {
      NoBit(mask / 2, d - 1);
    }
  }

  lemma BlankNeverMatches(c: Clock)
    ensures !Matches(BLANK, c)
  {
    NoBit(0, c.weekDay);
  }

  /** How many entries any reading since the last restart has written. */
  ghost function Reach(tr: TTrace, run: Run, k: nat): nat {
    if k == 0 then 0
    else
      var t, l, before := tr(k - 1), run(k - 1), Reach(tr, run, k - 1);
      if l.Restart? then 0
      else if l.Turn? && t.app.phase == LOAD_RULES then
        var m := Readable(t.app.sched, Slots(t.app.sched.bits), l.x.faults);
        if m > before then m else before
      else before
  }

  predicate BlankFrom(table: seq<Entry>, m: nat) {
    forall i :: m <= i < |table| ==> table[i].rule == BLANK
  }

  lemma LoadKeepsBlank(s: Sched, table: seq<Entry>, faults: nat -> int, m: nat)
    requires TableFits(s, table) && BlankFrom(table, m) && Readable(s, Slots(s.bits), faults) <= m
    ensures BlankFrom(ReadRules(s, table, faults).1, m)
  {
    hide LoadedEntry, SlotsUpTo;
  }

  lemma {:induction false} BlankBeyondReach(tr: TTrace, run: Run, repaired: bool, k: nat)
    requires Free(tr, run, repaired) && BlankFrom(tr(0).app.table, 0)
    ensures BlankFrom(tr(k).app.table, Reach(tr, run, k))
  {
    hide TStep, ReadRules, Readable, Slots, Deletions, Amounts, Apply, Matches;
    if k > 0 {
      BlankBeyondReach(tr, run, repaired, k - 1);
      var t, l := tr(k - 1), run(k - 1);
      assert tr(k) == TStep(t, l, repaired);
      if l.Turn? && t.app.phase == LOAD_RULES {
        LoadKeepsBlank(t.app.sched, t.app.table, l.x.faults, Reach(tr, run, k));
      }
    }
  }

  /** The last reading is no shorter than any since the last restart. */
  ghost predicate Longest(tr: TTrace, run: Run, k: nat) { Reach(tr, run, k) <= tr(k).loaded }

  // ---- safe runs ----

  /** The poll is clean, or comes after a reading no shorter than any before it. */
  ghost predicate PollsSafely(tr: TTrace, run: Run, k: nat) {
    Polling(tr(k), run(k)) ==> Clean(tr, run, k) || Longest(tr, run, k)
  }

  ghost predicate AllPollsSafe(tr: TTrace, run: Run) {
    forall k: nat {:trigger run(k)} :: PollsSafely(tr, run, k)
  }

  /** A safe poll selects no stale entry. */
  lemma SafePollSelectsNothingStale(tr: TTrace, run: Run, repaired: bool, k: nat)
    requires Free(tr, run, repaired) && !tr(0).app.available && NoEmptyCell(tr(0).app.sched.cells)
    requires BlankFrom(tr(0).app.table, 0) && PollsSafely(tr, run, k)
    ensures Shaped(tr(k)) && !SelectsStale(tr(k), run(k))
  {
    hide TStep, Step, Count, Matches, Dirty, Reach, NoEmptyCell;
    var _ := run(k);
    if Polling(tr(k), run(k)) {
      if Clean(tr, run, k) {
        CleanPollIsWithin(tr, run, repaired, k);
      } else {
        BlankBeyondReach(tr, run, repaired, k);
        BlankNeverMatches(run(k).x.Clock());
      }
    }
  }

  ghost predicate NeverRevives(tr: TTrace, run: Run) {
    forall k: nat {:trigger run(k)} :: Shaped(tr(k)) && !Revives(tr(k), run(k))
  }

  /** Safe runs from the start of the device satisfy the hypotheses of the one-shot theorems. */
  lemma SafeRunsBehave(tr: TTrace, run: Run, cells: Cells, n: nat, answers: nat -> bool, repaired: bool)
    requires 1 <= n < 0x100 && NoEmptyCell(cells)
    requires Free(tr, run, repaired) && tr(0) == Start(cells, n, answers)
    requires AllPollsSafe(tr, run) && (repaired || NeverRevives(tr, run))
    ensures TBehavior(tr, run, repaired) && Inv(tr(0), repaired)
  {
    BootSatisfiesInv(cells, n, answers, repaired);
    hide TStep, Step, Inv, PollsSafely, NoEmptyCell, Init, Revives, SelectsStale;
    assert !tr(0).app.available && tr(0).app.sched.cells == cells by { StartView(cells, n, answers); }
    forall k: nat ensures Shaped(tr(k)) && !SelectsStale(tr(k), run(k)) {
      var _ := run(k);
      SafePollSelectsNothingStale(tr, run, repaired, k);
    }
  }

  /** The two dispenses are of one rule whose deletion succeeded at the first, and are not the same dispense. */
  ghost predicate FeedsTwice(
    tr: TTrace, run: Run, repaired: bool, first: nat, i: nat, second: nat, j: nat)
  {
    && first <= second && !(first == second && i == j) && Shaped(tr(first)) && Shaped(tr(second))
    && i < |tr(first).app.table| && Feeds(tr(first).app, run(first), i)
    && Retires(tr(first), run(first).x, repaired, i)
    && j < |tr(second).app.table| && Feeds(tr(second).app, run(second), j)
    && IdOf(tr(first), i) == IdOf(tr(second), j)
  }

  /**
   From the start of the device, with every poll safe and, as written, nothing revived: a one-shot rule whose deletion
   succeeded is never dispensed again, whatever storage, other threads and restarts do.
   */
  lemma SafeRunsFeedOnce(tr: TTrace, run: Run, cells: Cells, n: nat, answers: nat -> bool, repaired: bool,
                         first: nat, i: nat, second: nat, j: nat)
    requires 1 <= n < 0x100 && NoEmptyCell(cells)
    requires Free(tr, run, repaired) && tr(0) == Start(cells, n, answers)
    requires AllPollsSafe(tr, run) && (repaired || NeverRevives(tr, run))
    ensures !FeedsTwice(tr, run, repaired, first, i, second, j)
  {
    hide TBehavior, Free, Inv, NoEmptyCell, Start, Retires, Feeds, AllPollsSafe, NeverRevives;
    if FeedsTwice(tr, run, repaired, first, i, second, j) {
      SafeRunsBehave(tr, run, cells, n, answers, repaired);
      OneShotFedAtMostOnce(tr, run, repaired, first, i, second, j);
    }
  }

  // ---- one slot ----

  /** With rules available something was loaded. */
  ghost predicate HasLoaded(t: Tracked) {
    NoEmptyCell(t.app.sched.cells) && (t.app.available ==> t.loaded > 0)
  }

  lemma StepKeepsHasLoaded(t: Tracked, l: Label, repaired: bool)
    requires Shaped(t) && HasLoaded(t)
    ensures HasLoaded(TStep(t, l, repaired))
  {
    hide Amounts, Select, Selected, Processed, SlotsUpTo, Deletions, Apply, Loaded;
    CellsStayNonempty(t, l, repaired);
    if l.Turn? && t.app.phase == LOAD_RULES {
      var slots := Slots(t.app.sched.bits);
      var m := Readable(t.app.sched, slots, l.x.faults);
      assert m < |slots| ==> ReadSlot(t.app.sched, slots[m], l.x.faults) < 0;
    }
  }

  lemma {:induction false} HasLoadedAlways(tr: TTrace, run: Run, repaired: bool, k: nat)
    requires Free(tr, run, repaired) && HasLoaded(tr(0))
    ensures HasLoaded(tr(k))
  {
    hide TStep, Step, HasLoaded;
    if k > 0 {
      HasLoadedAlways(tr, run, repaired, k - 1);
      StepKeepsHasLoaded(tr(k - 1), run(k - 1), repaired);
    }
  }

  lemma {:induction false} OneSlotStays(tr: TTrace, run: Run, repaired: bool, k: nat)
    requires Free(tr, run, repaired) && |tr(0).app.table| == 1
    ensures |tr(k).app.table| == 1
  {
    hide TStep, Step;
    if k > 0 {
      OneSlotStays(tr, run, repaired, k - 1);
      assert tr(k) == TStep(tr(k - 1), run(k - 1), repaired);
    }
  }

  /** With one slot no poll ever looks past the last reading, whatever it reads. */
  lemma OneSlotFeedsOnce(tr: TTrace, run: Run, cells: Cells, answers: nat -> bool,
                         first: nat, i: nat, second: nat, j: nat)
    requires NoEmptyCell(cells) && Free(tr, run, true) && tr(0) == Start(cells, 1, answers)
    ensures !FeedsTwice(tr, run, true, first, i, second, j)
  {
    hide TStep, Step, Inv, Retires, Revives, Feeds, NoEmptyCell;
    BootSatisfiesInv(cells, 1, answers, true);
    StartView(cells, 1, answers);
    forall k: nat ensures Shaped(tr(k)) && !SelectsStale(tr(k), run(k)) {
      var _ := run(k);
      OneSlotStays(tr, run, true, k);
      HasLoadedAlways(tr, run, true, k);
    }
    assert TBehavior(tr, run, true);
    if FeedsTwice(tr, run, true, first, i, second, j) {
      OneShotFedAtMostOnce(tr, run, true, first, i, second, j);
    }
  }
}
