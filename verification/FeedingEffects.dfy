/** Which rules a PROCESS turn takes out of the store, when a rule is dispensed, and that a reload comes. */
module FeedingEffects {
  import opened Types
  import opened RuleClock
  import opened Storage
  import opened Scheduler
  import opened Feeding
  import opened StoreEffects

  // ---- what process_rules deletes ----

  /** Slot k is erased: one of the first m entries is a dispensed one-shot rule of that slot, and its erasure works. */
  ghost predicate Erases(s: Sched, table: seq<Entry>, erases: nat -> int, m: nat, k: nat)
    requires m <= |table|
  {
    && k < |s.bits| && s.bits[k] && RULES_ID_BASE + k <= RULES_ID_END
    && exists i :: 0 <= i < m && IsOneShotOf(table[i], k) && erases(i) == 0
  }

  predicate IsOneShotOf(e: Entry, slot: nat) {
    e.state == Waiting && e.rule.period == SPECIF && e.fsIndex as nat == slot
  }

  lemma ErasesMore(s: Sched, table: seq<Entry>, erases: nat -> int, m: nat, k: nat)
    requires 0 < m <= |table|
    ensures Erases(s, table, erases, m, k) <==>
            || Erases(s, table, erases, m - 1, k)
            || (&& k < |s.bits| && s.bits[k] && RULES_ID_BASE + k <= RULES_ID_END
                && IsOneShotOf(table[m - 1], k) && erases(m - 1) == 0)
  {
    hide IsOneShotOf;
  }

  /** A slot is cleared exactly if it is erased; every other slot keeps its bit. */
  lemma {:induction false} ProcessClearsIff(
    s: Sched, table: seq<Entry>, erases: nat -> int, m: nat, repaired: bool, k: nat)
    requires m <= |table| && IndicesFit(table, |s.bits|) && k < |s.bits|
    ensures Deletions(s, table, erases, m, repaired).bits[k] <==> s.bits[k] && !Erases(s, table, erases, m, k)
  {
    if m > 0 {
      ProcessClearsIff(s, table, erases, m - 1, repaired, k);
      ErasesMore(s, table, erases, m, k);
      ProcessClearsAt(s, table, erases, m, repaired);
    }
  }

  /** What the last of the first m entries does. */
  lemma ProcessClearsAt(s: Sched, table: seq<Entry>, erases: nat -> int, m: nat, repaired: bool)
    requires 0 < m <= |table| && IndicesFit(table, |s.bits|)
    ensures var before, after, e := Deletions(s, table, erases, m - 1, repaired),
                                    Deletions(s, table, erases, m, repaired), table[m - 1];
            var slot := e.fsIndex as nat;
            if && IsOneShotOf(e, slot) && before.bits[slot]
               && RULES_ID_BASE + slot <= RULES_ID_END && erases(m - 1) == 0
            then after == Sched(before.bits[slot := false], before.cells - {DeletedId(slot, repaired)})
            else after == before
  {
  }

  /** Of all identifiers exactly those of erased slots disappear, and no content changes. */
  lemma {:induction false} ProcessErasesIff(
    s: Sched, table: seq<Entry>, erases: nat -> int, m: nat, repaired: bool, id: nat)
    requires m <= |table| && IndicesFit(table, |s.bits|)
    ensures var t := Deletions(s, table, erases, m, repaired);
            && (id in t.cells <==>
                  id in s.cells && forall k: nat :: DeletedId(k, repaired) == id ==> !Erases(s, table, erases, m, k))
            && (id in t.cells ==> t.cells[id] == s.cells[id])
  {
    hide Deletions, Erases, IsOneShotOf;
    if m == 0 {
      NothingErased(s, table, erases, repaired);
    } else {
      ProcessErasesIff(s, table, erases, m - 1, repaired, id);
      ProcessClearsAt(s, table, erases, m, repaired);
      var slot := table[m - 1].fsIndex as nat;
      ProcessClearsIff(s, table, erases, m - 1, repaired, slot);
      forall k: nat ensures k != slot ==> (Erases(s, table, erases, m, k) <==> Erases(s, table, erases, m - 1, k)) {
        ErasesMore(s, table, erases, m, k);
        OneSlotEach(table[m - 1], k);
      }
      ErasesMore(s, table, erases, m, slot);
    }
  }

  lemma NothingErased(s: Sched, table: seq<Entry>, erases: nat -> int, repaired: bool)
    requires IndicesFit(table, |s.bits|)
    ensures Deletions(s, table, erases, 0, repaired) == s
    ensures forall k: nat :: !Erases(s, table, erases, 0, k)
  {
  }

  lemma OneSlotEach(e: Entry, k: nat)
    ensures IsOneShotOf(e, k) ==> k == e.fsIndex as nat
  {
  }

  /** A turn that dispenses no one-shot rule leaves bitmap and flash as they are. */
  lemma {:induction false} NoOneShotKeepsStore(
    s: Sched, table: seq<Entry>, erases: nat -> int, m: nat, repaired: bool)
    requires m <= |table| && IndicesFit(table, |s.bits|)
    requires forall i :: 0 <= i < m ==> !(table[i].state == Waiting && table[i].rule.period == SPECIF)
    ensures Deletions(s, table, erases, m, repaired) == s
  {
    if m > 0 {
      NoOneShotKeepsStore(s, table, erases, m - 1, repaired);
    }
  }

  /**
   In every run the application thread takes a rule out of the bitmap only in a PROCESS turn that dispenses a one-shot
   entry of that slot and whose erasure works; anything else that clears a bit is a call of another thread or a restart.
   */
  lemma SlotLeavesOnlyIf(tr: Trace, run: Run, repaired: bool, n: nat, k: nat)
    requires Behavior(tr, run, repaired) && WellFormed(tr(n)) && WellFormed(tr(n + 1))
    requires k < |tr(n).sched.bits| == |tr(n + 1).sched.bits| && tr(n).sched.bits[k]
    requires !run(n).Store? && !run(n).Restart?
    ensures !tr(n + 1).sched.bits[k] <==>
            && run(n).Turn? && tr(n).phase == PROCESS
            && Erases(tr(n).sched, tr(n).table, run(n).x.erases, |tr(n).table|, k)
  {
    hide Deletions, Erases, Amounts, ReadRules, Select, Selected, Processed;
    assert tr(n + 1) == Step(tr(n), run(n), repaired);
    if run(n).Turn? && tr(n).phase == PROCESS {
      ProcessClearsIff(tr(n).sched, tr(n).table, run(n).x.erases, |tr(n).table|, repaired, k);
    }
  }

  // ---- dispensed only after a matching poll ----

  /** A waiting entry was selected by a poll that matched its rule, and no turn has been taken since. */
  lemma {:induction false} WaitingWasMatched(tr: Trace, run: Run, repaired: bool, k: nat, i: nat) returns (j: nat)
    requires Behavior(tr, run, repaired) && Quiet(tr(0)) && tr(0).phase != PROCESS
    requires i < |tr(k).table| && tr(k).table[i].state == Waiting
    ensures j < k && run(j).Turn? && i < |tr(j).table| && tr(j).table[i].state == Ready
    ensures Checks(tr(j), run(j), i) && tr(j).table[i].rule == tr(k).table[i].rule
    ensures Matches(tr(k).table[i].rule, run(j).x.Clock())
    ensures forall n {:trigger run(n)} :: j < n < k ==> !run(n).Turn?
  {
    hide Step, Matches;
    NoWaitingAtRest(tr, run, repaired, k);
    assert k > 0;
    NoWaitingAtRest(tr, run, repaired, k - 1);
    var a, l := tr(k - 1), run(k - 1);
    assert tr(k) == Step(a, l, repaired);
    assert !Reloads(a, l) by {
      if Reloads(a, l) {
        PhaseAfterReload(a, l, repaired);
      }
    }
    EntryStep(a, l, repaired, i);
    if Checks(a, l, i) {
      j := k - 1;
    } else {
      if l.Turn? {
        TurnLeavesProcess(a, l, repaired);
      }
      j := WaitingWasMatched(tr, run, repaired, k - 1, i);
    }
  }

  lemma PhaseAfterReload(a: App, l: Label, repaired: bool)
    requires WellFormed(a) && Reloads(a, l)
    ensures Step(a, l, repaired).phase != PROCESS
  {
    hide ReadRules;
  }

  lemma TurnLeavesProcess(a: App, l: Label, repaired: bool)
    requires WellFormed(a) && a.phase == PROCESS && l.Turn?
    ensures Step(a, l, repaired).phase == IDLE
  {
    hide Deletions, Amounts;
  }

  /** In every run a one-shot rule is dispensed only after a poll on its date, in its minute. */
  lemma OneShotFedInItsMinute(tr: Trace, run: Run, repaired: bool, k: nat, i: nat) returns (j: nat)
    requires Behavior(tr, run, repaired) && Quiet(tr(0)) && tr(0).phase != PROCESS
    requires i < |tr(k).table| && Feeds(tr(k), run(k), i)
    requires ValidPayload(tr(k).table[i].rule) && tr(k).table[i].rule.period == SPECIF
    ensures var r := tr(k).table[i].rule;
            && j < k && Checks(tr(j), run(j), i) && i < |tr(j).table| && tr(j).table[i].rule == r
            && run(j).x.date == Date(r.year, r.month, r.day)
            && run(j).x.now / 60 % MINUTES_PER_DAY == r.hour * 60 + r.minutes
  {
    hide Matches, Step;
    j := WaitingWasMatched(tr, run, repaired, k, i);
    MatchesIffItsMinute(tr(k).table[i].rule, run(j).x.now, run(j).x.date);
  }

  lemma OnlyKnownPeriodsMatch(r: Rule, c: Clock)
    ensures Matches(r, c) ==> r.period == WEEKLY || r.period == SPECIF
  {
  }

  /** In every run no rule of any other period is ever dispensed, whatever flash holds. */
  lemma UnknownPeriodNeverFed(tr: Trace, run: Run, repaired: bool, k: nat, i: nat)
    requires Behavior(tr, run, repaired) && Quiet(tr(0)) && tr(0).phase != PROCESS
    requires i < |tr(k).table| && Feeds(tr(k), run(k), i)
    ensures tr(k).table[i].rule.period == WEEKLY || tr(k).table[i].rule.period == SPECIF
  {
    hide Matches, Step;
    var j := WaitingWasMatched(tr, run, repaired, k, i);
    OnlyKnownPeriodsMatch(tr(k).table[i].rule, run(j).x.Clock());
  }

  // ---- an update leads to a reload ----

  /** A reload is asked for or due. */
  predicate ReloadAhead(a: App) { a.shouldUpdate || a.phase == LOAD_RULES || a.phase == INIT }

  function TurnsToLoad(p: Phase): nat {
    match p
    case CHECK_RULES => 3
    case PROCESS => 2
    case IDLE | INIT => 1
    case LOAD_RULES => 0
  }

  lemma StepNearsLoad(a: App, l: Label, repaired: bool)
    requires WellFormed(a) && ReloadAhead(a) && !Reloads(a, l)
    ensures var b := Step(a, l, repaired);
            && ReloadAhead(b)
            && TurnsToLoad(b.phase) + (if l.Turn? then 1 else 0) <= TurnsToLoad(a.phase)
  {
    hide Deletions, Amounts, ReadRules, Select, Selected, Processed, Apply;
  }

  lemma {:induction false} NearsLoad(tr: Trace, run: Run, repaired: bool, k: nat, m: nat)
    requires Behavior(tr, run, repaired) && k <= m && ReloadAhead(tr(k))
    requires forall j {:trigger run(j)} :: k <= j < m ==> !Reloads(tr(j), run(j))
    ensures ReloadAhead(tr(m)) && TurnsToLoad(tr(m).phase) + Turns(run, k, m) <= TurnsToLoad(tr(k).phase)
    decreases m - k
  {
    hide Step, ReloadAhead, Reloads;
    if k < m {
      NearsLoad(tr, run, repaired, k, m - 1);
      var _ := run(m - 1);
      StepNearsLoad(tr(m - 1), run(m - 1), repaired);
    }
  }

  /** After MQTT_UPDATE_DATA, however other threads interleave, the table is read again within four turns. */
  lemma UpdateLeadsToReload(tr: Trace, run: Run, repaired: bool, k: nat, m: nat)
    requires Behavior(tr, run, repaired) && run(k) == Update(MQTT_UPDATE_DATA) && k < m && Turns(run, k + 1, m) >= 4
    ensures exists j {:trigger run(j)} :: k < j < m && Reloads(tr(j), run(j))
  {
    hide Step, Reloads;
    assert ReloadAhead(tr(k + 1)) by { UpdateAsks(tr(k), repaired); }
    if forall j {:trigger run(j)} :: k < j < m ==> !Reloads(tr(j), run(j)) {
      NearsLoad(tr, run, repaired, k + 1, m);
    }
  }

  lemma UpdateAsks(a: App, repaired: bool)
    requires WellFormed(a)
    ensures ReloadAhead(Step(a, Update(MQTT_UPDATE_DATA), repaired))
  {
  }
}
