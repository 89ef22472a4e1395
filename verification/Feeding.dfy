/**
 The application thread as a state machine: one `Tick` is one turn of the loop in `Application::app`,
 interleaved with what other threads do to the store and to the reload flag.
 */
module Feeding {
  import opened Types
  import opened RuleClock
  import opened Storage
  import opened RuleCodec
  import opened Scheduler

  const APPLICATION_THREAD_PERIOD: nat := 5000
  const WTD_TIMEOUT_THRESHOLD: nat := 5000
  /** `k_usleep(500)` after every motor step. */
  const STEP_US: nat := 500

  datatype Phase = INIT | LOAD_RULES | CHECK_RULES | PROCESS | IDLE

  /** `delay` is the time, in microseconds, the thread asked to sleep since the watchdog was last fed. */
  datatype App = App(
    phase: Phase, table: seq<Entry>, available: bool, shouldUpdate: bool,
    sched: Sched, toggles: nat, delay: nat)

  /**
   What one turn meets: the time, the calendar date, the successive readings of `get_number_of_rules`
   (another thread may change the bitmap between them), read faults by slot, erase results by table entry.
   */
  datatype Input = Input(now: nat, date: Date, readings: nat -> nat, faults: nat -> int, erases: nat -> int) {
    function Clock(): Clock { At(now, date) }
  }

  // ---- select_rules_to_execute ----

  function SelectEntry(e: Entry, c: Clock): Entry {
    if Matches(e.rule, c) then
      if e.state == Ready then e.(state := Waiting) else e
    else if e.state == Executed && e.rule.period == WEEKLY then e.(state := Ready)
    else e
  }

  function Select(table: seq<Entry>, p: nat, c: Clock): (t: seq<Entry>)
    ensures |t| == |table|
  {
    seq(|table|, i requires 0 <= i < |table| => if i < p then SelectEntry(table[i], c) else table[i])
  }

  /** How many entries the select loop visits when its test reads `readings(i)` on turn i. */
  function Bound(readings: nat -> nat, n: nat, i: nat): (p: nat)
    requires i <= n
    ensures i <= p <= n
    ensures forall j :: i <= j < p ==> j < readings(j)
    ensures p < n ==> p >= readings(p)
    decreases n - i
  {
    if i < n && i < readings(i) then Bound(readings, n, i + 1) else i
  }

  /** The entries among the first `p` that become Waiting. */
  function Selected(table: seq<Entry>, p: nat, c: Clock): nat
    requires p <= |table|
  {
    if p == 0 then 0
    else Selected(table, p - 1, c) + (if table[p - 1].state == Ready && Matches(table[p - 1].rule, c) then 1 else 0)
  }

  // ---- process_rules ----

  function ProcessEntry(e: Entry): Entry { if e.state == Waiting then e.(state := Executed) else e }

  function Processed(table: seq<Entry>): (t: seq<Entry>)
    ensures |t| == |table|
  {
    seq(|table|, i requires 0 <= i < |table| => ProcessEntry(table[i]))
  }

  /** Motor steps asked for by the Waiting entries among the first `m`. */
  function Amounts(table: seq<Entry>, m: nat): nat
    requires m <= |table|
  {
    if m == 0 then 0
    else Amounts(table, m - 1) + (if table[m - 1].state == Waiting then table[m - 1].rule.amount else 0)
  }

  /** The store after the one-shot entries among the first `m` were deleted. */
  function Deletions(s: Sched, table: seq<Entry>, erases: nat -> int, m: nat, repaired: bool): (t: Sched)
    requires m <= |table| && IndicesFit(table, |s.bits|)
    ensures |t.bits| == |s.bits|
  {
    if m == 0 then s
    else
      var t := Deletions(s, table, erases, m - 1, repaired);
      var e := table[m - 1];
      if e.state == Waiting && e.rule.period == SPECIF then DeleteRule(t, e.fsIndex, erases(m - 1), repaired).1 else t
  }

  ghost predicate IndicesFit(table: seq<Entry>, n: nat) {
    forall i :: 0 <= i < |table| ==> table[i].fsIndex < n
  }

  // ---- the loop ----

  ghost predicate WellFormed(a: App) {
    1 <= |a.table| == |a.sched.bits| < 0x100 && IndicesFit(a.table, |a.sched.bits|)
  }

  ghost function Tick(a: App, x: Input, repaired: bool): (b: App)
    requires WellFormed(a)
    ensures WellFormed(b)
  {
    match a.phase
    case INIT => a.(shouldUpdate := false, phase := LOAD_RULES)
    case LOAD_RULES =>
      var (ret, table) := ReadRules(a.sched, a.table, x.faults);
      LoadKeepsIndices(a.sched, a.table, x.faults);
      a.(available := ret == 0, table := table, phase := CHECK_RULES)
    case CHECK_RULES =>
      if !a.available then a.(phase := IDLE)
      else
        var p := Bound(x.readings, |a.table|, 0);
        a.(table := Select(a.table, p, x.Clock()),
           phase := if Selected(a.table, p, x.Clock()) != 0 then PROCESS else IDLE)
    case PROCESS =>
      var steps := Amounts(a.table, |a.table|);
      a.(table := Processed(a.table), sched := Deletions(a.sched, a.table, x.erases, |a.table|, repaired),
         toggles := a.toggles + steps, delay := a.delay + STEP_US * steps, phase := IDLE)
    case IDLE =>
      a.(phase := if a.shouldUpdate then LOAD_RULES else CHECK_RULES, shouldUpdate := false,
         delay := 1000 * APPLICATION_THREAD_PERIOD)
  }

  lemma LoadKeepsIndices(s: Sched, table: seq<Entry>, faults: nat -> int)
    requires 1 <= |table| == |s.bits| < 0x100 && IndicesFit(table, |s.bits|)
    ensures IndicesFit(ReadRules(s, table, faults).1, |s.bits|)
  {
  }

  /** RAM after a reset is zeroed; `init` rebuilds the bitmap from flash. */
  function Boot(cells: Cells, n: nat, answers: nat -> bool): (a: App)
    requires 1 <= n < 0x100
    ensures WellFormed(a) && |a.table| == n
  {
    App(INIT, seq(n, _ => Entry(Rule(0, 0, 0, 0, 0, WEEKLY, 0, 0), Ready, 0)), false, false,
        Init(Sched(seq(n, _ => false), cells), answers), 0, 0)
  }

  datatype Label =
    | Turn(x: Input)
    | Update(evt: Event)
    | Store(op: Op)
    | Restart(answers: nat -> bool)

  ghost function Step(a: App, l: Label, repaired: bool): (b: App)
    requires WellFormed(a)
    ensures WellFormed(b) && |b.table| == |a.table|
  {
    match l
    case Turn(x) => Tick(a, x, repaired)
    case Update(evt) => if evt == MQTT_UPDATE_DATA then a.(shouldUpdate := true) else a
    case Store(op) => a.(sched := Apply(a.sched, op, repaired))
    case Restart(answers) => Boot(a.sched.cells, |a.table|, answers)
  }

  /** An unbounded schedule of labels, and the states it leads through. */
  type Run = nat -> Label
  type Trace = nat -> App

  ghost predicate Behavior(tr: Trace, run: Run, repaired: bool) {
    forall k: nat {:trigger run(k)} ::
      && WellFormed(tr(k))
      && |tr(k).table| == |tr(0).table|
      && tr(k + 1) == Step(tr(k), run(k), repaired)
  }

  ghost function State(a0: App, run: Run, repaired: bool, k: nat): (a: App)
    requires WellFormed(a0)
    ensures WellFormed(a) && |a.table| == |a0.table|
  {
    if k == 0 then a0 else Step(State(a0, run, repaired, k - 1), run(k - 1), repaired)
  }

  /** Every schedule has a behavior from every well-formed state. */
  lemma EveryScheduleRuns(a0: App, run: Run, repaired: bool) returns (tr: Trace)
    requires WellFormed(a0)
    ensures Behavior(tr, run, repaired) && tr(0) == a0
  {
    tr := (k: nat) => State(a0, run, repaired, k);
  }

  // ---- no entry waits outside PROCESS ----

  function WaitingCount(table: seq<Entry>, m: nat): nat
    requires m <= |table|
  {
    if m == 0 then 0 else WaitingCount(table, m - 1) + (if table[m - 1].state == Waiting then 1 else 0)
  }

  predicate NoneWaiting(table: seq<Entry>) {
    forall i :: 0 <= i < |table| ==> table[i].state != Waiting
  }

  lemma {:induction false} SelectedBelow(table: seq<Entry>, p: nat, c: Clock, m: nat)
    requires p <= |table| && m <= |table| && NoneWaiting(table)
    ensures WaitingCount(Select(table, p, c), m) == Selected(table, if m < p then m else p, c)
  {
    if m > 0 {
      SelectedBelow(table, p, c, m - 1);
    }
  }

  /** The count `select_rules_to_execute` returns is the number of Waiting entries it leaves. */
  lemma SelectReturnsWaitingCount(table: seq<Entry>, p: nat, c: Clock)
    requires p <= |table| && NoneWaiting(table)
    ensures Selected(table, p, c) == WaitingCount(Select(table, p, c), |table|)
  {
    SelectedBelow(table, p, c, |table|);
  }

  lemma {:induction false} NoneWaitingIff(table: seq<Entry>, m: nat)
    requires m <= |table|
    ensures WaitingCount(table, m) == 0 <==> forall i :: 0 <= i < m ==> table[i].state != Waiting
  {
    if m > 0 {
      NoneWaitingIff(table, m - 1);
    }
  }

  ghost predicate Quiet(a: App) { a.phase != PROCESS ==> NoneWaiting(a.table) }

  lemma StepKeepsQuiet(a: App, l: Label, repaired: bool)
    requires WellFormed(a) && Quiet(a)
    ensures Quiet(Step(a, l, repaired))
  {
    hide Deletions, Amounts, Apply, Matches, SlotsUpTo;
    if l.Turn? && a.phase == CHECK_RULES && a.available {
      var p := Bound(l.x.readings, |a.table|, 0);
      SelectReturnsWaitingCount(a.table, p, l.x.Clock());
      NoneWaitingIff(Select(a.table, p, l.x.Clock()), |a.table|);
    }
  }

  /** No rule is ever left Waiting once the thread reaches IDLE, LOAD_RULES or CHECK_RULES. */
  lemma {:induction false} NoWaitingAtRest(tr: Trace, run: Run, repaired: bool, k: nat)
    requires Behavior(tr, run, repaired) && Quiet(tr(0))
    ensures WellFormed(tr(k)) && Quiet(tr(k))
  {
    var _ := run(k);
    if k > 0 {
      NoWaitingAtRest(tr, run, repaired, k - 1);
      StepKeepsQuiet(tr(k - 1), run(k - 1), repaired);
    }
  }

  // ---- what one step does to one entry ----

  /** In step k the entry `i` is dispensed. */
  ghost predicate Feeds(a: App, l: Label, i: nat)
    requires i < |a.table|
  {
    l.Turn? && a.phase == PROCESS && a.table[i].state == Waiting
  }

  /** In step k the table is read again (or lost in a reset). */
  ghost predicate Reloads(a: App, l: Label) {
    l.Restart? || (l.Turn? && a.phase == LOAD_RULES)
  }

  /** In step k the entry `i` is compared with the clock. */
  ghost predicate Checks(a: App, l: Label, i: nat) {
    l.Turn? && a.phase == CHECK_RULES && a.available && i < Bound(l.x.readings, |a.table|, 0)
  }

  /** In step k the weekly rule of entry `i` is seen not to match. */
  ghost predicate Misses(a: App, l: Label, i: nat)
    requires i < |a.table|
  {
    Checks(a, l, i) && a.table[i].rule.period == WEEKLY && !Matches(a.table[i].rule, l.x.Clock())
  }

  /** Entries evolve independently: an entry changes only in its own check, its own dispense, or a reload. */
  lemma EntryStep(a: App, l: Label, repaired: bool, i: nat)
    requires WellFormed(a) && i < |a.table| && !Reloads(a, l)
    ensures Step(a, l, repaired).table[i] ==
            if Checks(a, l, i) then SelectEntry(a.table[i], l.x.Clock())
            else if Feeds(a, l, i) then a.table[i].(state := Executed)
            else a.table[i]
  {
  }

  // ---- at most once per window ----

  /** The entry's window ends: the table is reloaded, or its weekly rule is seen not to match. */
  ghost predicate WindowEnds(a: App, l: Label, i: nat)
    requires i < |a.table|
  {
    Reloads(a, l) || Misses(a, l, i)
  }

  lemma ExecutedStep(a: App, l: Label, repaired: bool, i: nat)
    requires WellFormed(a) && i < |a.table| && a.table[i].state == Executed
    requires !Reloads(a, l) && !Misses(a, l, i)
    ensures Step(a, l, repaired).table[i].state == Executed
  {
    EntryStep(a, l, repaired, i);
  }

  lemma {:induction false} StaysExecuted(tr: Trace, run: Run, repaired: bool, i: nat, from: nat, to: nat)
    requires Behavior(tr, run, repaired) && i < |tr(0).table| && from <= to
    requires |tr(from).table| == |tr(0).table| && tr(from).table[i].state == Executed
    requires forall k {:trigger run(k)} :: from <= k < to ==> !WindowEnds(tr(k), run(k), i)
    ensures |tr(to).table| == |tr(0).table| && tr(to).table[i].state == Executed
  {
    if from < to {
      StaysExecuted(tr, run, repaired, i, from, to - 1);
      ExecutedStep(tr(to - 1), run(to - 1), repaired, i);
    }
  }

  lemma FedIsExecuted(a: App, l: Label, repaired: bool, i: nat)
    requires WellFormed(a) && i < |a.table| && Feeds(a, l, i)
    ensures Step(a, l, repaired).table[i].state == Executed
  {
  }

  /**
   Between two dispenses of one table entry there is a reload or a poll at which its weekly rule did not match,
   in every run, whatever other entries and threads do and however the slot count changes.
   */
  lemma AtMostOncePerWindow(tr: Trace, run: Run, repaired: bool, i: nat, first: nat, second: nat)
    requires Behavior(tr, run, repaired) && i < |tr(0).table| && first < second
    requires Feeds(tr(first), run(first), i) && Feeds(tr(second), run(second), i)
    ensures exists k {:trigger run(k)} :: first < k < second && WindowEnds(tr(k), run(k), i)
  {
    FedIsExecuted(tr(first), run(first), repaired, i);
    if forall k {:trigger run(k)} :: first < k < second ==> !WindowEnds(tr(k), run(k), i) {
      StaysExecuted(tr, run, repaired, i, first + 1, second);
      assert false;
    }
  }

  // ---- conservation of motor steps ----

  function SumOf(amounts: seq<nat>): nat {
    if amounts == [] then 0 else SumOf(amounts[..|amounts| - 1]) + amounts[|amounts| - 1]
  }

  /** The amounts dispensed in one PROCESS turn, in table order. */
  function Dispensed(table: seq<Entry>, m: nat): seq<nat>
    requires m <= |table|
  {
    if m == 0 then [] else
      Dispensed(table, m - 1) + (if table[m - 1].state == Waiting then [table[m - 1].rule.amount as nat] else [])
  }

  /** The amounts dispensed since the run began or the device last restarted. */
  ghost function Log(tr: Trace, run: Run, k: nat): seq<nat> {
    if k == 0 then []
    else if run(k - 1).Restart? then []
    else if run(k - 1).Turn? && tr(k - 1).phase == PROCESS then
      Log(tr, run, k - 1) + Dispensed(tr(k - 1).table, |tr(k - 1).table|)
    else Log(tr, run, k - 1)
  }

  lemma {:induction false} SumOfConcat(x: seq<nat>, y: seq<nat>)
    ensures SumOf(x + y) == SumOf(x) + SumOf(y)
  {
    if y == [] {
      assert x + y == x;
    } else {
      var z := x + y;
      assert z[..|z| - 1] == x + y[..|y| - 1];
      SumOfConcat(x, y[..|y| - 1]);
    }
  }

  lemma {:induction false} AmountsSum(table: seq<Entry>, m: nat)
    requires m <= |table|
    ensures Amounts(table, m) == SumOf(Dispensed(table, m))
  {
    if m > 0 {
      AmountsSum(table, m - 1);
      if table[m - 1].state == Waiting {
        var d: nat := table[m - 1].rule.amount;
        SumOfConcat(Dispensed(table, m - 1), [d]);
        assert [d][..0] == [] && SumOf([]) == 0;
        assert SumOf([d]) == d;
        assert Dispensed(table, m) == Dispensed(table, m - 1) + [d];
      } else {
        assert Dispensed(table, m) == Dispensed(table, m - 1);
      }
    }
  }

  /** In every run the motor has toggled exactly as often as the rules dispensed so far asked for. */
  lemma {:induction false} StepsAreConserved(tr: Trace, run: Run, repaired: bool, k: nat)
    requires Behavior(tr, run, repaired) && tr(0).toggles == 0
    ensures tr(k).toggles == SumOf(Log(tr, run, k))
  {
    if k > 0 {
      StepsAreConserved(tr, run, repaired, k - 1);
      var a := tr(k - 1);
      assert tr(k) == Step(a, run(k - 1), repaired);
      if run(k - 1).Turn? && a.phase == PROCESS {
        AmountsSum(a.table, |a.table|);
        SumOfConcat(Log(tr, run, k - 1), Dispensed(a.table, |a.table|));
      }
    }
  }

  // ---- watchdog budget ----

  /** Turns until IDLE. */
  function Rank(p: Phase): nat {
    match p
    case INIT => 4
    case LOAD_RULES => 3
    case CHECK_RULES => 2
    case PROCESS => 1
    case IDLE => 0
  }

  /** Every turn outside IDLE brings the loop nearer to IDLE, where the watchdog is fed. */
  lemma TurnsReachIdle(a: App, x: Input, repaired: bool)
    requires WellFormed(a) && a.phase != IDLE
    ensures Rank(Tick(a, x, repaired).phase) < Rank(a.phase)
  {
  }

  /** The longest sleep asked for before the watchdog is fed again, with n slots. */
  function Budget(n: nat): nat { 1000 * APPLICATION_THREAD_PERIOD + STEP_US * 255 * n }

  lemma {:induction false} AmountsBound(table: seq<Entry>, m: nat)
    requires m <= |table|
    ensures Amounts(table, m) <= 255 * m
  {
    if m > 0 {
      AmountsBound(table, m - 1);
    }
  }

  /** PROCESS is entered at most once between two feeds, so one full dispense pass bounds the delay. */
  ghost predicate InBudget(a: App) {
    && a.delay <= Budget(|a.table|)
    && (a.phase != IDLE ==> a.delay <= 1000 * APPLICATION_THREAD_PERIOD)
  }

  lemma StepKeepsBudget(a: App, l: Label, repaired: bool)
    requires WellFormed(a) && InBudget(a)
    ensures InBudget(Step(a, l, repaired))
  {
    AmountsBound(a.table, |a.table|);
  }

  /** The turns among the steps from k up to m. */
  ghost function Turns(run: Run, k: nat, m: nat): nat
    decreases m - k
  {
    if k >= m then 0 else Turns(run, k, m - 1) + (if run(m - 1).Turn? then 1 else 0)
  }

  lemma {:induction false} RankFalls(tr: Trace, run: Run, repaired: bool, k: nat, m: nat)
    requires Behavior(tr, run, repaired) && k <= m
    requires forall j {:trigger run(j)} :: k <= j < m ==> !run(j).Restart?
    requires forall j: nat :: k <= j < m ==> tr(j).phase != IDLE
    ensures Rank(tr(m).phase) + Turns(run, k, m) <= Rank(tr(k).phase)
    decreases m - k
  {
    if k < m {
      RankFalls(tr, run, repaired, k, m - 1);
      var a := tr(m - 1);
      assert tr(m) == Step(a, run(m - 1), repaired);
      if run(m - 1).Turn? {
        TurnsReachIdle(a, run(m - 1).x, repaired);
      }
    }
  }

  /** Four turns without a restart always come through IDLE, whatever other threads do in between. */
  lemma IdleWithinFourTurns(tr: Trace, run: Run, repaired: bool, k: nat, m: nat)
    requires Behavior(tr, run, repaired) && k <= m && Turns(run, k, m) >= 4
    requires forall j {:trigger run(j)} :: k <= j < m ==> !run(j).Restart?
    ensures exists j: nat :: k <= j <= m && tr(j).phase == IDLE
  {
    if forall j: nat :: k <= j <= m ==> tr(j).phase != IDLE {
      RankFalls(tr, run, repaired, k, m);
    }
  }

  lemma {:induction false} DelayStaysInBudget(tr: Trace, run: Run, repaired: bool, k: nat)
    requires Behavior(tr, run, repaired) && InBudget(tr(0))
    ensures InBudget(tr(k)) && |tr(k).table| == |tr(0).table|
  {
    var _ := run(k);
    if k > 0 {
      DelayStaysInBudget(tr, run, repaired, k - 1);
      StepKeepsBudget(tr(k - 1), run(k - 1), repaired);
    }
  }

  const WATCHDOG_US: nat := 1000 * (APPLICATION_THREAD_PERIOD + WTD_TIMEOUT_THRESHOLD)

  /** In every run from the start of the device the requested delay stays below the watchdog period. */
  ghost predicate AlwaysFedInTime(n: nat, repaired: bool)
    requires 1 <= n < 0x100
  {
    forall tr: Trace, run: Run, cells: Cells, answers: nat -> bool, k: nat
        {:trigger Behavior(tr, run, repaired), Boot(cells, n, answers), tr(k)} ::
      Behavior(tr, run, repaired) && tr(0) == Boot(cells, n, answers) ==> tr(k).delay < WATCHDOG_US
  }

  /** A daily rule that asks for the largest amount, at midnight. */
  const HEAVY: Rule := Rule(0, 0, 0, 0, 0, WEEKLY, 0x7F, 255)

  predicate IsCredential(id: nat) { id == SSID_ID || id == PASSWORD_ID }

  /** Flash with one rule in each of n slots. */
  function Stocked(n: nat, r: Rule): Cells {
    map id: nat | id < RULES_ID_BASE + n && !IsCredential(id) :: Encode(r, Padding(0, 0, 0, 0))
  }

  lemma {:induction false} HeaviestAmounts(table: seq<Entry>, m: nat)
    requires m <= |table| && forall i :: 0 <= i < |table| ==> table[i].state == Waiting && table[i].rule.amount == 255
    ensures Amounts(table, m) == 255 * m
  {
    if m > 0 {
      HeaviestAmounts(table, m - 1);
    }
  }

  lemma {:induction false} AllSlots(bits: seq<bool>, m: nat)
    requires m <= |bits| && forall i :: 0 <= i < |bits| ==> bits[i]
    ensures |SlotsUpTo(bits, m)| == m
  {
    if m > 0 {
      AllSlots(bits, m - 1);
    }
  }

  /** A reading of the full store fills the whole table with it. */
  lemma StockedTable(n: nat, r: Rule, table: seq<Entry>)
    requires 1 <= n < 0x100 && |table| == n
    ensures var s := Init(Sched(seq(n, _ => false), Stocked(n, r)), _ => true);
            var (ret, t) := ReadRules(s, table, _ => 0);
            && Count(s.bits) == n && ret == 0 && |t| == n
            && forall i :: 0 <= i < n ==> t[i].state == Ready && t[i].rule == r
  {
    hide SlotsUpTo, Encode, Decode, ReadRules;
    var s := Init(Sched(seq(n, _ => false), Stocked(n, r)), _ => true);
    AllSlots(s.bits, n);
    DecodeEncode(r, Padding(0, 0, 0, 0));
    assert forall id :: id in s.cells ==> s.cells[id] == Encode(r, Padding(0, 0, 0, 0));
    assert HoldsRules(s);
    ReadListsStore(s, table, _ => 0);
  }

  /** Poll at 10 s before midnight and at midnight. */
  function Poll(k: nat, n: nat): Label {
    Turn(Input(if k < 3 then 86390 else 86400, Date(0, 0, 0), _ => n, _ => 0, _ => 0))
  }

  lemma MidnightOnly(now: nat, date: Date)
    requires now == 86390 || now == 86400
    ensures Matches(HEAVY, At(now, date)) <==> now == 86400
  {
    assert At(86400, date) == Clock(date, 5, 0, 0);
    assert At(86390, date).hour == 23;
    assert Bit(0x7F, 5) by {
      assert Bit(1, 0) && Bit(3, 1) && Bit(7, 2) && Bit(15, 3) && Bit(31, 4);
    }
  }

  /** Nothing is selected before midnight, everything at midnight. */
  lemma HeavyPoll(table: seq<Entry>, p: nat, now: nat, date: Date)
    requires p <= |table| && (now == 86390 || now == 86400)
    requires forall i :: 0 <= i < |table| ==> table[i].state == Ready && table[i].rule == HEAVY
    ensures Selected(table, p, At(now, date)) == if now == 86400 then p else 0
    ensures now != 86400 ==> Select(table, p, At(now, date)) == table
    ensures now == 86400 ==>
              forall i :: 0 <= i < p ==> Select(table, p, At(now, date))[i] == table[i].(state := Waiting)
  {
    hide Matches;
    MidnightOnly(now, date);
    if p > 0 {
      HeavyPoll(table, p - 1, now, date);
    }
  }

  /** The run of a full table: load, a poll that finds nothing, IDLE, a poll that finds everything, PROCESS. */
  lemma HeaviestRun(n: nat, repaired: bool) returns (tr: Trace, run: Run)
    requires 1 <= n < 0x100
    ensures Behavior(tr, run, repaired) && tr(0) == Boot(Stocked(n, HEAVY), n, _ => true) && tr(6).delay == Budget(n)
  {
    hide ReadRules, Select, Selected, Deletions, Init, Stocked, Slots, Matches;
    run := (k: nat) => Poll(k, n);
    tr := EveryScheduleRuns(Boot(Stocked(n, HEAVY), n, _ => true), run, repaired);
    assert forall k: nat :: run(k) == Poll(k, n);
    StockedTable(n, HEAVY, tr(0).table);
    assert run(0).Turn? && tr(0 + 1) == Step(tr(0), run(0), repaired);
    assert run(1).Turn? && tr(1 + 1) == Step(tr(1), run(1), repaired);
    var loaded := tr(2);
    assert Bound(_ => n, n, 0) == n;
    assert run(2).Turn? && tr(2 + 1) == Step(tr(2), run(2), repaired);
    HeavyPoll(loaded.table, n, 86390, Date(0, 0, 0));
    assert run(3).Turn? && tr(3 + 1) == Step(tr(3), run(3), repaired);
    assert run(4).Turn? && tr(4 + 1) == Step(tr(4), run(4), repaired);
    HeavyPoll(loaded.table, n, 86400, Date(0, 0, 0));
    assert run(5).Turn? && tr(5 + 1) == Step(tr(5), run(5), repaired);
    HeaviestAmounts(tr(5).table, n);
  }

  /** From the start of the device, in all runs, the delay stays below the watchdog period exactly up to 39 slots. */
  lemma WatchdogHoldsIff(n: nat, repaired: bool)
    requires 1 <= n < 0x100
    ensures AlwaysFedInTime(n, repaired) <==> n <= 39
  {
    hide Boot;
    if n <= 39 {
      forall tr: Trace, run: Run, cells: Cells, answers: nat -> bool, k: nat
        | Behavior(tr, run, repaired) && tr(0) == Boot(cells, n, answers)
        ensures tr(k).delay < WATCHDOG_US
      {
        BootInBudget(cells, n, answers);
        DelayStaysInBudget(tr, run, repaired, k);
      }
    } else {
      var tr, run := HeaviestRun(n, repaired);
      assert tr(6).delay >= WATCHDOG_US;
    }
  }

  lemma BootInBudget(cells: Cells, n: nat, answers: nat -> bool)
    requires 1 <= n < 0x100
    ensures InBudget(Boot(cells, n, answers)) && |Boot(cells, n, answers).table| == n
  {
  }

  // ---- what a reload does ----

  /** The thread polls without rules and no reload is asked for. */
  ghost predicate Silenced(a: App) {
    !a.available && !a.shouldUpdate && (a.phase == CHECK_RULES || a.phase == IDLE)
  }

  lemma {:induction false} StaysSilenced(tr: Trace, run: Run, repaired: bool, k: nat, m: nat)
    requires Behavior(tr, run, repaired) && k <= m && Silenced(tr(k))
    requires forall j {:trigger run(j)} :: k <= j < m ==> !run(j).Restart? && run(j) != Update(MQTT_UPDATE_DATA)
    ensures Silenced(tr(m))
    decreases m - k
  {
    hide ReadRules, Select, Selected, Processed, Deletions, Amounts, Apply, Boot;
    if k < m {
      StaysSilenced(tr, run, repaired, k, m - 1);
      var l := run(m - 1);
      assert tr(m) == Step(tr(m - 1), l, repaired);
    }
  }

  /**
   After a load that failed or found nothing no rule at all is dispensed, not even the ones the failed load did read,
   until another MQTT_UPDATE_DATA or a restart.
   */
  lemma FailedLoadSilences(tr: Trace, run: Run, repaired: bool, load: nat, later: nat, i: nat)
    requires Behavior(tr, run, repaired) && load < later && i < |tr(0).table|
    requires run(load).Turn? && tr(load).phase == LOAD_RULES && !tr(load).shouldUpdate
    requires ReadRules(tr(load).sched, tr(load).table, run(load).x.faults).0 != 0
    requires forall j {:trigger run(j)} :: load <= j < later ==> !run(j).Restart? && run(j) != Update(MQTT_UPDATE_DATA)
    ensures |tr(later).table| == |tr(0).table| && !Feeds(tr(later), run(later), i)
  {
    hide ReadRules;
    assert tr(load + 1) == Step(tr(load), run(load), repaired);
    StaysSilenced(tr, run, repaired, load + 1, later);
    var _ := run(later);
  }

  /** Any stored rule that matches right after a fault-free load is dispensed, even if it was dispensed just before. */
  lemma LoadFeedsMatchingRules(
    a: App, load: Input, check: Input, process: Input, repaired: bool, slot: nat) returns (j: nat)
    requires WellFormed(a) && a.phase == LOAD_RULES && Agreement(a.sched) && HoldsRules(a.sched)
    requires NoFault(a.sched.bits, load.faults) && forall i: nat :: check.readings(i) == Count(a.sched.bits)
    requires slot < |a.sched.bits| && a.sched.bits[slot] && |a.sched.cells[RULES_ID_BASE + slot]| == RULE_SIZE
    requires Matches(Decode(a.sched.cells[RULES_ID_BASE + slot]), check.Clock())
    ensures var b := Tick(Tick(a, load, repaired), check, repaired);
            && j < |b.table| && b.table[j].fsIndex as nat == slot
            && Feeds(b, Turn(process), j)
  {
    hide Slots, Decode, Matches, Selected, ReadRules, Agreement, HoldsRules, NoFault;
    j := LoadedEntryOf(a.sched, a.table, load.faults, slot);
    var l := Tick(a, load, repaired);
    SelectedOne(l.table, Bound(check.readings, |l.table|, 0), check.Clock(), j);
  }

  lemma LoadedEntryOf(s: Sched, table: seq<Entry>, faults: nat -> int, slot: nat) returns (j: nat)
    requires TableFits(s, table) && Agreement(s) && HoldsRules(s) && NoFault(s.bits, faults)
    requires slot < |s.bits| && s.bits[slot] && |s.cells[RULES_ID_BASE + slot]| == RULE_SIZE
    ensures ReadRules(s, table, faults).0 == 0 && j < Count(s.bits) <= |table|
    ensures ReadRules(s, table, faults).1[j] == Entry(Decode(s.cells[RULES_ID_BASE + slot]), Ready, slot)
  {
    hide SlotsUpTo, Decode, ReadRules;
    var cover := SlotsCover(s.bits, slot);
    ReadListsStore(s, table, faults);
    j :| 0 <= j < Count(s.bits) && ReadRules(s, table, faults).1[j].fsIndex as nat == slot;
  }

  lemma {:induction false} SelectedOne(table: seq<Entry>, p: nat, c: Clock, j: nat)
    requires j < p <= |table| && table[j].state == Ready && Matches(table[j].rule, c)
    ensures Selected(table, p, c) > 0
  {
    if p > j + 1 {
      SelectedOne(table, p - 1, c, j);
    }
  }
}
