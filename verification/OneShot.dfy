/**
 One-shot (SPECIF) rules across polls, reloads and restarts. History variables give every written rule an
 identity: the slot it was written to and how many rules that slot had held before.
 */
module OneShot {
  import opened Types
  import opened RuleCodec
  import opened RuleClock
  import opened Storage
  import opened Scheduler
  import opened Feeding

  type Id = (nat, nat)

  /** `gen[k]` counts the rules written to slot k, `tableGen[i]` is the count when entry i was read,
      `loaded` the length of the last complete reading, `retired` the rules dispensed and then deleted. */
  datatype Tracked = Tracked(app: App, gen: seq<nat>, tableGen: seq<nat>, loaded: nat, retired: set<Id>)

  ghost predicate Shaped(t: Tracked) {
    && WellFormed(t.app)
    && |t.gen| == |t.tableGen| == |t.app.table|
  }

  ghost function IdOf(t: Tracked, i: nat): Id
    requires Shaped(t) && i < |t.app.table|
  {
    (t.app.table[i].fsIndex as nat, t.tableGen[i])
  }

  /** In this PROCESS turn entry i is one-shot and `delete_rule` returns 0 for it. */
  ghost predicate Retires(t: Tracked, x: Input, repaired: bool, i: nat)
    requires Shaped(t) && i < |t.app.table|
  {
    var e := t.app.table[i];
    && e.state == Waiting && e.rule.period == SPECIF
    && DeleteRule(Deletions(t.app.sched, t.app.table, x.erases, i, repaired), e.fsIndex, x.erases(i), repaired).0 == 0
  }

  /** A device switched on for the first time with the given flash. */
  ghost function Start(cells: Cells, n: nat, answers: nat -> bool): (t: Tracked)
    requires 1 <= n < 0x100
    ensures Shaped(t)
  {
    Tracked(Boot(cells, n, answers), seq(n, _ => 0), seq(n, _ => 0), 0, {})
  }

  ghost function TStep(t: Tracked, l: Label, repaired: bool): (u: Tracked)
    requires Shaped(t)
    ensures Shaped(u) && u.app == Step(t.app, l, repaired)
  {
    var u := t.(app := Step(t.app, l, repaired));
    match l
    case Turn(x) =>
      if t.app.phase == LOAD_RULES then
        var slots := Slots(t.app.sched.bits);
        var m := Readable(t.app.sched, slots, x.faults);
        u.(loaded := if u.app.available then m else 0,
           tableGen := seq(|t.tableGen|, j requires 0 <= j < |t.tableGen| =>
             if j < m then t.gen[slots[j]] else t.tableGen[j]))
      else if t.app.phase == PROCESS then
        u.(retired := t.retired + set i | 0 <= i < |t.app.table| && Retires(t, x, repaired, i) :: IdOf(t, i))
      else u
    case Store(WriteOp(data, writes)) =>
      var k := FirstFit(t.app.sched.bits, |data|, writes, 0);
      if k < |t.gen| then u.(gen := t.gen[k := t.gen[k] + 1]) else u
    case Restart(_) => u.(loaded := 0)
    case _ => u
  }

  // ---- the invariant ----

  /** The entries of the last reading have different slots and are not younger than what their slot holds. */
  ghost predicate EntriesDistinct(t: Tracked)
    requires Shaped(t)
  {
    && t.loaded <= |t.app.table|
    && (forall i, j :: 0 <= i < j < t.loaded ==> t.app.table[i].fsIndex != t.app.table[j].fsIndex)
    && (forall i :: 0 <= i < t.loaded ==> t.tableGen[i] <= t.gen[t.app.table[i].fsIndex])
  }

  /** Nothing beyond the last reading waits. */
  ghost predicate TailIdle(t: Tracked)
    requires Shaped(t)
  {
    forall i :: t.loaded <= i < |t.app.table| ==> t.app.table[i].state != Waiting
  }

  /** A retired rule that is still in the table stays Executed. */
  ghost predicate RetiredExecuted(t: Tracked)
    requires Shaped(t) && t.loaded <= |t.app.table|
  {
    forall i :: 0 <= i < t.loaded && IdOf(t, i) in t.retired ==>
      t.app.table[i].state == Executed && t.app.table[i].rule.period == SPECIF
  }

  /** A retired rule is no longer stored. */
  ghost predicate RetiredGone(t: Tracked, repaired: bool)
    requires Shaped(t)
  {
    forall id :: id in t.retired ==> Gone(t, id, repaired)
  }

  ghost predicate Inv(t: Tracked, repaired: bool) {
    && Shaped(t) && Quiet(t.app) && EntriesDistinct(t) && TailIdle(t) && RetiredExecuted(t) && RetiredGone(t, repaired)
  }

  ghost predicate Polling(t: Tracked, l: Label) { l.Turn? && t.app.phase == CHECK_RULES && t.app.available }

  /** A poll looks past the entries of the last reading and finds a rule there that is ready and matches. */
  ghost predicate SelectsStale(t: Tracked, l: Label)
    requires WellFormed(t.app)
  {
    && Polling(t, l)
    && exists j ::
         && t.loaded <= j < Bound(l.x.readings, |t.app.table|, 0)
         && t.app.table[j].state == Ready && Matches(t.app.table[j].rule, l.x.Clock())
  }

  /** The label rebuilds the bitmap from flash, and the length query of the slot is answered. */
  predicate Rebuilds(l: Label, slot: nat) {
    (l.Restart? && l.answers(slot)) || (l.Store? && l.op.InitOp? && l.op.answers(slot))
  }

  /** A dispensed and deleted rule is still in flash, as only the deletion as written leaves it, and comes back. */
  ghost predicate Revives(t: Tracked, l: Label)
    requires Shaped(t)
  {
    exists id ::
      && id in t.retired && id.0 < |t.gen| && id.1 == t.gen[id.0]
      && RULES_ID_BASE + id.0 in t.app.sched.cells && Rebuilds(l, id.0)
  }

  // ---- one step ----

  lemma DeletionsOnlyClear(s: Sched, table: seq<Entry>, erases: nat -> int, m: nat, repaired: bool)
    requires m <= |table| && IndicesFit(table, |s.bits|)
    ensures var t := Deletions(s, table, erases, m, repaired);
            && (forall k :: 0 <= k < |s.bits| && t.bits[k] ==> s.bits[k])
            && (forall id :: id in t.cells ==> id in s.cells && t.cells[id] == s.cells[id])
  {
  }

  lemma {:induction false} DeletionsClear(
    s: Sched, table: seq<Entry>, erases: nat -> int, m: nat, i: nat, repaired: bool)
    requires i < m <= |table| && IndicesFit(table, |s.bits|)
    requires table[i].state == Waiting && table[i].rule.period == SPECIF
    requires DeleteRule(Deletions(s, table, erases, i, repaired), table[i].fsIndex, erases(i), repaired).0 == 0
    ensures var t := Deletions(s, table, erases, m, repaired);
            !t.bits[table[i].fsIndex] && (repaired ==> RULES_ID_BASE + table[i].fsIndex !in t.cells)
  {
    if m > i + 1 {
      DeletionsClear(s, table, erases, m - 1, i, repaired);
    }
  }

  /** The slot a retired rule occupied no longer holds it. */
  ghost predicate Gone(t: Tracked, id: Id, repaired: bool)
    requires Shaped(t)
  {
    && id.0 < |t.gen| && id.1 <= t.gen[id.0]
    && (id.1 == t.gen[id.0] ==>
          !t.app.sched.bits[id.0] && (repaired ==> RULES_ID_BASE + id.0 !in t.app.sched.cells))
  }

  lemma NewlyRetiredIsGone(t: Tracked, x: Input, repaired: bool, i: nat)
    requires Inv(t, repaired) && t.app.phase == PROCESS
    requires i < |t.app.table| && Retires(t, x, repaired, i)
    ensures Gone(TStep(t, Turn(x), repaired), IdOf(t, i), repaired)
  {
    hide DeleteRule, Deletions;
    DeletionsClear(t.app.sched, t.app.table, x.erases, |t.app.table|, i, repaired);
    assert i < t.loaded;
  }

  lemma ProcessKeepsGone(t: Tracked, x: Input, repaired: bool)
    requires Inv(t, repaired) && t.app.phase == PROCESS
    ensures RetiredGone(TStep(t, Turn(x), repaired), repaired)
  {
    hide DeleteRule, Deletions, Amounts;
    var u := TStep(t, Turn(x), repaired);
    DeletionsOnlyClear(t.app.sched, t.app.table, x.erases, |t.app.table|, repaired);
    forall id | id in u.retired ensures Gone(u, id, repaired) {
      if id in t.retired {
        assert Gone(t, id, repaired);
      } else {
        var i :| 0 <= i < |t.app.table| && Retires(t, x, repaired, i) && id == IdOf(t, i);
        NewlyRetiredIsGone(t, x, repaired, i);
      }
    }
  }

  lemma ProcessKeepsExecuted(t: Tracked, x: Input, repaired: bool)
    requires Inv(t, repaired) && t.app.phase == PROCESS
    ensures RetiredExecuted(TStep(t, Turn(x), repaired))
  {
    hide Deletions, DeleteRule, Amounts;
    var u := TStep(t, Turn(x), repaired);
    forall i | 0 <= i < u.loaded && IdOf(u, i) in u.retired
      ensures u.app.table[i].state == Executed && u.app.table[i].rule.period == SPECIF
    {
      if IdOf(t, i) !in t.retired {
        var j :| 0 <= j < |t.app.table| && Retires(t, x, repaired, j) && IdOf(u, i) == IdOf(t, j);
        assert j < t.loaded;
        assert t.app.table[i].fsIndex == t.app.table[j].fsIndex;
        assert i == j;
      }
    }
  }

  lemma LoadedSlots(s: Sched, table: seq<Entry>, faults: nat -> int, j: nat)
    requires TableFits(s, table) && j < Readable(s, Slots(s.bits), faults)
    ensures ReadRules(s, table, faults).1[j].fsIndex == Slots(s.bits)[j]
    ensures ReadRules(s, table, faults).1[j].state == Ready
  {
    hide Decode, Encode, ReadInto;
  }

  /** The entries of a fresh reading carry the identity their slot has now, and are therefore not retired. */
  lemma FreshEntry(t: Tracked, x: Input, repaired: bool, j: nat)
    requires Inv(t, repaired) && t.app.phase == LOAD_RULES
    requires j < TStep(t, Turn(x), repaired).loaded
    ensures var u := TStep(t, Turn(x), repaired);
            && u.loaded <= |Slots(t.app.sched.bits)| <= |u.app.table|
            && IdOf(u, j) == (Slots(t.app.sched.bits)[j], t.gen[Slots(t.app.sched.bits)[j]])
            && IdOf(u, j) !in t.retired
  {
    hide LoadedEntry;
    LoadedSlots(t.app.sched, t.app.table, x.faults, j);
    var slot := Slots(t.app.sched.bits)[j];
    assert (slot, t.gen[slot]) in t.retired ==> Gone(t, (slot, t.gen[slot]), repaired);
  }

  lemma LoadTail(t: Tracked, x: Input, repaired: bool)
    requires Inv(t, repaired) && t.app.phase == LOAD_RULES
    ensures var u := TStep(t, Turn(x), repaired);
            TailIdle(u) && Quiet(u.app) && u.loaded <= |u.app.table|
  {
    hide LoadedEntry;
    StepKeepsQuiet(t.app, Turn(x), repaired);
  }

  lemma LoadKeeps(t: Tracked, x: Input, repaired: bool)
    requires Inv(t, repaired) && t.app.phase == LOAD_RULES
    ensures Inv(TStep(t, Turn(x), repaired), repaired)
  {
    hide Readable, ReadRules;
    var u := TStep(t, Turn(x), repaired);
    var slots := Slots(t.app.sched.bits);
    LoadTail(t, x, repaired);
    SlotsIncrease(t.app.sched.bits, |t.app.sched.bits|);
    forall j | 0 <= j < u.loaded
      ensures j < |slots| && IdOf(u, j) == (slots[j], t.gen[slots[j]]) && IdOf(u, j) !in t.retired
    {
      FreshEntry(t, x, repaired, j);
    }
    forall id | id in u.retired ensures Gone(u, id, repaired) {
      assert Gone(t, id, repaired);
    }
    assert RetiredGone(u, repaired);
    assert RetiredExecuted(u);
    assert EntriesDistinct(u);
  }

  /** A poll keeps the invariant exactly if it selects no stale entry. */
  lemma CheckKeepsIff(t: Tracked, x: Input, repaired: bool)
    requires Inv(t, repaired) && t.app.phase == CHECK_RULES
    ensures Inv(TStep(t, Turn(x), repaired), repaired) <==> !SelectsStale(t, Turn(x))
  {
    hide TStep, Step, SelectsStale;
    if SelectsStale(t, Turn(x)) {
      StaleWaits(t, x, repaired);
    } else {
      CheckKeeps(t, x, repaired);
    }
  }

  lemma StaleWaits(t: Tracked, x: Input, repaired: bool)
    requires Inv(t, repaired) && t.app.phase == CHECK_RULES && SelectsStale(t, Turn(x))
    ensures !Inv(TStep(t, Turn(x), repaired), repaired)
  {
    hide Matches, Selected, ReadRules, Deletions, RetiredGone, RetiredExecuted, EntriesDistinct;
    var u := TStep(t, Turn(x), repaired);
    var j :| && t.loaded <= j < Bound(x.readings, |t.app.table|, 0)
             && t.app.table[j].state == Ready && Matches(t.app.table[j].rule, x.Clock());
    assert u.app.table[j].state == Waiting;
  }

  lemma CheckKeeps(t: Tracked, x: Input, repaired: bool)
    requires Inv(t, repaired) && t.app.phase == CHECK_RULES && !SelectsStale(t, Turn(x))
    ensures Inv(TStep(t, Turn(x), repaired), repaired)
  {
    hide Matches, Selected, ReadRules, Deletions;
    StepKeepsQuiet(t.app, Turn(x), repaired);
    var u := TStep(t, Turn(x), repaired);
    forall i | t.loaded <= i < |t.app.table| ensures u.app.table[i].state != Waiting {
      assert t.app.table[i].state != Waiting;
    }
  }

  lemma ProcessKeeps(t: Tracked, x: Input, repaired: bool)
    requires Inv(t, repaired) && t.app.phase == PROCESS
    ensures Inv(TStep(t, Turn(x), repaired), repaired)
  {
    hide Deletions, Amounts, DeleteRule;
    StepKeepsQuiet(t.app, Turn(x), repaired);
    ProcessKeepsGone(t, x, repaired);
    ProcessKeepsExecuted(t, x, repaired);
  }

  /** With the repaired deletion nothing is ever revived. */
  lemma RepairedNeverRevives(t: Tracked, l: Label)
    requires Inv(t, true)
    ensures !Revives(t, l)
  {
    forall id | id in t.retired ensures Gone(t, id, true) {
    }
  }

  /** Rebuilding the bitmap keeps retired rules out exactly if none of them is still in flash and answered for. */
  lemma RebuildKeepsGoneIff(t: Tracked, l: Label, repaired: bool)
    requires Inv(t, repaired) && (l.Restart? || (l.Store? && l.op.InitOp?))
    ensures RetiredGone(TStep(t, l, repaired), repaired) <==> !Revives(t, l)
  {
    var u := TStep(t, l, repaired);
    if Revives(t, l) {
      var id :| && id in t.retired && id.0 < |t.gen| && id.1 == t.gen[id.0]
                && RULES_ID_BASE + id.0 in t.app.sched.cells && Rebuilds(l, id.0);
      assert u.app.sched.bits[id.0];
      assert !Gone(u, id, repaired);
    } else {
      forall id | id in u.retired ensures Gone(u, id, repaired) {
        assert Gone(t, id, repaired);
      }
    }
  }

  lemma StoreKeepsIff(t: Tracked, op: Op, repaired: bool)
    requires Inv(t, repaired)
    ensures Inv(TStep(t, Store(op), repaired), repaired) <==> !Revives(t, Store(op))
  {
    hide RetiredExecuted;
    var u := TStep(t, Store(op), repaired);
    assert u.app.table == t.app.table;
    assert RetiredExecuted(u) by { SameTableExecuted(t, u); }
    if op.InitOp? {
      RebuildKeepsGoneIff(t, Store(op), repaired);
    } else {
      forall id | id in u.retired ensures Gone(u, id, repaired) {
        assert Gone(t, id, repaired);
      }
    }
  }

  lemma SameTableExecuted(t: Tracked, u: Tracked)
    requires Shaped(t) && Shaped(u) && t.loaded == u.loaded <= |t.app.table| && RetiredExecuted(t)
    requires u.app.table == t.app.table && u.tableGen == t.tableGen && u.retired == t.retired
    ensures RetiredExecuted(u)
  {
    assert forall i :: 0 <= i < t.loaded ==> IdOf(u, i) == IdOf(t, i);
  }

  lemma RestartKeepsIff(t: Tracked, answers: nat -> bool, repaired: bool)
    requires Inv(t, repaired)
    ensures Inv(TStep(t, Restart(answers), repaired), repaired) <==> !Revives(t, Restart(answers))
  {
    RebuildKeepsGoneIff(t, Restart(answers), repaired);
  }

  /** A step keeps the invariant exactly if it neither selects a stale entry nor revives a retired rule. */
  lemma StepKeepsIff(t: Tracked, l: Label, repaired: bool)
    requires Inv(t, repaired)
    ensures Inv(TStep(t, l, repaired), repaired) <==> !SelectsStale(t, l) && !Revives(t, l)
  {
    hide ReadRules, Deletions, Amounts, Select, Processed, Apply, Matches;
    match l
    case Turn(x) =>
      match t.app.phase {
        case LOAD_RULES => LoadKeeps(t, x, repaired);
        case CHECK_RULES => CheckKeepsIff(t, x, repaired);
        case PROCESS => ProcessKeeps(t, x, repaired);
        case _ =>
      }
    case Store(op) => StoreKeepsIff(t, op, repaired);
    case Restart(answers) => RestartKeepsIff(t, answers, repaired);
    case _ =>
  }

  /** Every device starts within the invariant. */
  lemma BootSatisfiesInv(cells: Cells, n: nat, answers: nat -> bool, repaired: bool)
    requires 1 <= n < 0x100
    ensures Inv(Start(cells, n, answers), repaired)
  {
  }

  // ---- runs ----

  type TTrace = nat -> Tracked

  /** Any run. */
  ghost predicate Free(tr: TTrace, run: Run, repaired: bool) {
    forall k: nat {:trigger run(k)} :: Shaped(tr(k)) && tr(k + 1) == TStep(tr(k), run(k), repaired)
  }

  /** A run in which no poll selects a stale entry and, as written, no retired rule is revived. */
  ghost predicate TBehavior(tr: TTrace, run: Run, repaired: bool) {
    && Free(tr, run, repaired)
    && forall k: nat {:trigger run(k)} ::
         !SelectsStale(tr(k), run(k)) && (repaired || !Revives(tr(k), run(k)))
  }

  lemma {:induction false} InvAlways(tr: TTrace, run: Run, repaired: bool, k: nat)
    requires TBehavior(tr, run, repaired) && Inv(tr(0), repaired)
    ensures Inv(tr(k), repaired)
  {
    hide TStep, Inv, SelectsStale, Revives;
    if k > 0 {
      InvAlways(tr, run, repaired, k - 1);
      if repaired {
        RepairedNeverRevives(tr(k - 1), run(k - 1));
      }
      StepKeepsIff(tr(k - 1), run(k - 1), repaired);
    }
  }

  ghost predicate KeepsRetired(t: Tracked, l: Label) {
    Shaped(t) && !SelectsStale(t, l) && !Revives(t, l)
  }

  /** In any run the invariant holds up to step n exactly if no step before selects a stale entry or revives a rule. */
  lemma {:induction false} InvThroughoutIff(tr: TTrace, run: Run, repaired: bool, n: nat)
    requires Free(tr, run, repaired) && Inv(tr(0), repaired)
    ensures (forall k: nat :: k <= n ==> Inv(tr(k), repaired)) <==>
            forall k: nat {:trigger run(k)} :: k < n ==> KeepsRetired(tr(k), run(k))
  {
    hide TStep, Inv, SelectsStale, Revives;
    if n > 0 {
      InvThroughoutIff(tr, run, repaired, n - 1);
      var _ := run(n - 1);
      if Inv(tr(n - 1), repaired) {
        StepKeepsIff(tr(n - 1), run(n - 1), repaired);
      }
    }
  }

  lemma {:induction false} RetiredStays(tr: TTrace, run: Run, repaired: bool, from: nat, to: nat)
    requires TBehavior(tr, run, repaired) && from <= to
    ensures tr(from).retired <= tr(to).retired
  {
    if from < to {
      RetiredStays(tr, run, repaired, from, to - 1);
      RetiredGrows(tr(to - 1), run(to - 1), repaired);
    }
  }

  lemma RetiredGrows(t: Tracked, l: Label, repaired: bool)
    requires Shaped(t)
    ensures t.retired <= TStep(t, l, repaired).retired
  {
  }

  /** A fed entry was read completely, is not retired, and no other entry fed in the same turn is the same rule. */
  lemma FedIsFresh(t: Tracked, l: Label, repaired: bool, i: nat)
    requires Inv(t, repaired) && i < |t.app.table| && Feeds(t.app, l, i)
    ensures IdOf(t, i) !in t.retired
    ensures forall j :: 0 <= j < |t.app.table| && j != i && Feeds(t.app, l, j) ==> IdOf(t, j) != IdOf(t, i)
  {
    assert i < t.loaded;
  }

  /** A one-shot rule whose deletion succeeded is never dispensed again, by any later turn, reload or restart. */
  lemma OneShotFedAtMostOnce(tr: TTrace, run: Run, repaired: bool, first: nat, i: nat, second: nat, j: nat)
    requires TBehavior(tr, run, repaired) && Inv(tr(0), repaired)
    requires first <= second && Shaped(tr(first)) && Shaped(tr(second))
    requires i < |tr(first).app.table| && Feeds(tr(first).app, run(first), i)
    requires Retires(tr(first), run(first).x, repaired, i)
    requires j < |tr(second).app.table| && Feeds(tr(second).app, run(second), j)
    requires IdOf(tr(first), i) == IdOf(tr(second), j)
    ensures first == second && i == j
  {
    hide Inv;
    InvAlways(tr, run, repaired, first);
    InvAlways(tr, run, repaired, second);
    if first < second {
      assert IdOf(tr(first), i) in tr(first + 1).retired by {
        assert tr(first + 1) == TStep(tr(first), run(first), repaired);
      }
      RetiredStays(tr, run, repaired, first + 1, second);
      FedIsFresh(tr(second), run(second), repaired, j);
    } else {
      FedIsFresh(tr(second), run(second), repaired, j);
    }
  }

  // ---- what a stale copy does ----

  /** Entries i and j hold the same one-shot rule, ready to be dispensed at the checked minute. */
  ghost predicate Twins(t: Tracked, i: nat, j: nat, c: Clock) {
    && Shaped(t) && i < j < |t.app.table|
    && t.app.table[i] == t.app.table[j] && IdOf(t, i) == IdOf(t, j)
    && t.app.table[i].state == Ready && t.app.table[i].rule.period == SPECIF && Matches(t.app.table[i].rule, c)
  }

  /** A rule added before the next reading makes the copy visible, and both twins are dispensed in one turn. */
  lemma TwinsAreBothFed(t: Tracked, x: Input, y: Input, repaired: bool, i: nat, j: nat)
    requires Inv(t, repaired) && t.app.phase == CHECK_RULES && t.app.available
    requires Twins(t, i, j, x.Clock()) && j < Bound(x.readings, |t.app.table|, 0)
    ensures var u := TStep(t, Turn(x), repaired);
            && u.app.phase == PROCESS
            && Feeds(u.app, Turn(y), i) && Feeds(u.app, Turn(y), j) && IdOf(u, i) == IdOf(u, j)
  {
    hide Matches;
    var p := Bound(x.readings, |t.app.table|, 0);
    SelectReturnsWaitingCount(t.app.table, p, x.Clock());
    NoneWaitingIff(Select(t.app.table, p, x.Clock()), |t.app.table|);
    assert Select(t.app.table, p, x.Clock())[i].state == Waiting;
  }

  /** Hence a poll dispenses the copy as well exactly if more rules are live by now than the last reading loaded. */
  lemma TwinsFedTwiceIff(t: Tracked, x: Input, y: Input, repaired: bool, i: nat, j: nat)
    requires Inv(t, repaired) && t.app.phase == CHECK_RULES && t.app.available
    requires Twins(t, i, j, x.Clock()) && forall m: nat :: x.readings(m) == Count(t.app.sched.bits)
    ensures Feeds(TStep(t, Turn(x), repaired).app, Turn(y), j) <==> j < Count(t.app.sched.bits)
    ensures j >= t.loaded
  {
    hide Matches, Slots;
    var p := Bound(x.readings, |t.app.table|, 0);
    assert p > 0 ==> p - 1 < x.readings(p - 1);
    if j < p {
      TwinsAreBothFed(t, x, y, repaired, i, j);
    }
  }
}
