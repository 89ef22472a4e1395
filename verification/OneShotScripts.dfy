/** Complete runs, for every number of slots, in which a one-shot rule is dispensed twice. */
module OneShotScripts {
  import opened Types
  import opened RuleCodec
  import opened RuleClock
  import opened Storage
  import opened Scheduler
  import opened Feeding
  import opened OneShot
  import opened OneShotRuns

  ghost function TState(t0: Tracked, run: Run, repaired: bool, k: nat): (t: Tracked)
    requires Shaped(t0)
    ensures Shaped(t)
  {
    if k == 0 then t0 else TStep(TState(t0, run, repaired, k - 1), run(k - 1), repaired)
  }

  lemma RunFrom(t0: Tracked, run: Run, repaired: bool) returns (tr: TTrace)
    requires Shaped(t0)
    ensures Free(tr, run, repaired) && tr(0) == t0
  {
    tr := (k: nat) => TState(t0, run, repaired, k);
  }

  /** What the runs below are about: everything but the cells, which all hold the same rule. */
  datatype View = View(
    phase: Phase, available: bool, flag: bool, bits: seq<bool>, table: seq<Entry>,
    gen: seq<nat>, tableGen: seq<nat>, loaded: nat)

  ghost function ViewOf(t: Tracked): View {
    View(t.app.phase, t.app.available, t.app.shouldUpdate, t.app.sched.bits, t.app.table, t.gen, t.tableGen, t.loaded)
  }

  /** Exactly the slots of the bitmap are stored, each with the rule. */
  ghost predicate Stores(s: Sched, r: Rule) {
    && Agreement(s)
    && forall i :: 0 <= i < |s.bits| && s.bits[i] ==> s.cells[RULES_ID_BASE + i] == Image(r)
  }

  function Image(r: Rule): seq<byte> { Encode(r, Padding(0, 0, 0, 0)) }

  lemma StoresRules(s: Sched, r: Rule)
    requires Stores(s, r)
    ensures HoldsRules(s) && Decode(Image(r)) == r
  {
    hide Decode, Encode;
    DecodeEncode(r, Padding(0, 0, 0, 0));
    forall id | id in s.cells && RULES_ID_BASE <= id < RULES_ID_BASE + |s.bits| ensures IsImage(s.cells[id]) {
      assert s.bits[id - RULES_ID_BASE];
    }
  }

  lemma LoadView(t: Tracked, x: Input, repaired: bool, r: Rule)
    requires Shaped(t) && t.app.phase == LOAD_RULES && Stores(t.app.sched, r) && Count(t.app.sched.bits) > 0
    requires forall k: nat :: x.faults(k) >= 0
    ensures var u, slots := TStep(t, Turn(x), repaired), Slots(t.app.sched.bits);
            && u.app.sched == t.app.sched && |slots| <= |t.app.table|
            && ViewOf(u) == ViewOf(t).(
                 phase := CHECK_RULES, available := true, loaded := |slots|,
                 table := seq(|t.app.table|, j requires 0 <= j < |t.app.table| =>
                   if j < |slots| then Entry(r, Ready, slots[j]) else t.app.table[j]),
                 tableGen := seq(|t.tableGen|, j requires 0 <= j < |t.tableGen| =>
                   if j < |slots| then t.gen[slots[j]] else t.tableGen[j]))
  {
    hide Decode, Encode, SlotsUpTo, LoadedEntry, Stores, HoldsRules;
    assert Agreement(t.app.sched) by { StoresAgree(t.app.sched, r); }
    StoresRules(t.app.sched, r);
    ReadStatus(t.app.sched, t.app.table, x.faults);
    var slots := Slots(t.app.sched.bits);
    forall j | 0 <= j < |slots|
      ensures Loaded(t.app.sched, t.app.table, slots, |slots|)[j] == Entry(r, Ready, slots[j])
    {
      LoadedEntries(t.app.sched, t.app.table, j);
      StoresAt(t.app.sched, r, slots[j]);
    }
  }

  lemma StoresAgree(s: Sched, r: Rule)
    requires Stores(s, r)
    ensures Agreement(s)
  {
  }

  lemma StoresAt(s: Sched, r: Rule, slot: nat)
    requires Stores(s, r) && slot < |s.bits| && s.bits[slot]
    ensures RULES_ID_BASE + slot in s.cells && s.cells[RULES_ID_BASE + slot] == Image(r)
  {
  }

  lemma DeleteView(t: Tracked, slot: nat, r: Rule)
    requires Shaped(t) && Stores(t.app.sched, r) && slot < |t.app.sched.bits| && t.app.sched.bits[slot] && slot <= 4
    ensures var u := TStep(t, Store(DeleteOp(slot, 0)), true);
            && Stores(u.app.sched, r)
            && ViewOf(u) == ViewOf(t).(bits := t.app.sched.bits[slot := false])
  {
    hide Encode;
  }

  /** A flash that accepts everything. */
  function Willing(k: nat): ZmsWrite { ZmsWrite(RULE_SIZE, true, 0) }

  lemma WriteView(t: Tracked, slot: nat, r: Rule)
    requires Shaped(t) && Stores(t.app.sched, r) && slot < |t.app.sched.bits| && !t.app.sched.bits[slot]
    requires forall i :: 0 <= i < slot ==> t.app.sched.bits[i]
    ensures var u := TStep(t, Store(WriteOp(Image(r), Willing)), true);
            && Stores(u.app.sched, r)
            && ViewOf(u) == ViewOf(t).(bits := t.app.sched.bits[slot := true], gen := t.gen[slot := t.gen[slot] + 1])
  {
    hide Encode;
    var k := FirstFit(t.app.sched.bits, RULE_SIZE, Willing, 0);
    assert k <= slot by {
      assert !t.app.sched.bits[slot] && WriteResult(RULE_SIZE, Willing(slot)) > 0;
    }
  }

  lemma InitView(t: Tracked, x: Input, repaired: bool)
    requires Shaped(t) && t.app.phase == INIT
    ensures var u := TStep(t, Turn(x), repaired);
            u.app.sched == t.app.sched && ViewOf(u) == ViewOf(t).(phase := LOAD_RULES, flag := false)
  {
  }

  lemma FlagView(t: Tracked, repaired: bool)
    requires Shaped(t)
    ensures var u := TStep(t, Update(MQTT_UPDATE_DATA), repaired);
            u.app.sched == t.app.sched && ViewOf(u) == ViewOf(t).(flag := true)
  {
  }

  lemma IdleView(t: Tracked, x: Input, repaired: bool)
    requires Shaped(t) && t.app.phase == IDLE && t.app.shouldUpdate
    ensures var u := TStep(t, Turn(x), repaired);
            u.app.sched == t.app.sched && ViewOf(u) == ViewOf(t).(phase := LOAD_RULES, flag := false)
  {
  }

  function E(r: Rule, k: byte): Entry { Entry(r, Ready, k) }

  // ---- bitmaps with at most two slots set ----

  predicate NoneFrom(bits: seq<bool>, m: nat) {
    forall i :: m <= i < |bits| ==> !bits[i]
  }

  lemma {:induction false} SlotsBelow(bits: seq<bool>, m: nat, n: nat)
    requires m <= n <= |bits| && NoneFrom(bits, m)
    ensures SlotsUpTo(bits, n) == SlotsUpTo(bits, m)
    decreases n
  {
    if n > m {
      SlotsBelow(bits, m, n - 1);
    }
  }

  lemma OneSlot(bits: seq<bool>)
    requires |bits| >= 1 && NoneFrom(bits, 1)
    ensures Slots(bits) == if bits[0] then [0] else []
  {
    SlotsBelow(bits, 1, |bits|);
    assert SlotsUpTo(bits, 1) == if bits[0] then [0] else [];
  }

  lemma TwoSlots(bits: seq<bool>)
    requires |bits| >= 2 && NoneFrom(bits, 2)
    ensures Slots(bits) == (if bits[0] then [0] else []) + (if bits[1] then [1] else [])
  {
    SlotsBelow(bits, 2, |bits|);
    assert SlotsUpTo(bits, 1) == if bits[0] then [0] else [];
    assert SlotsUpTo(bits, 2) == SlotsUpTo(bits, 1) + if bits[1] then [1] else [];
  }

  // ---- polls of a table whose first entries hold the rule ----

  /** The first m entries hold rule r and are ready, the others are blank. */
  predicate Front(table: seq<Entry>, r: Rule, m: nat) {
    && m <= |table|
    && forall i :: 0 <= i < |table| ==>
         table[i].state == Ready && table[i].rule == if i < m then r else BLANK
  }

  lemma {:induction false} SelectedNone(table: seq<Entry>, p: nat, c: Clock)
    requires p <= |table| && forall i :: 0 <= i < |table| ==> !Matches(table[i].rule, c)
    ensures Selected(table, p, c) == 0
  {
    hide Matches;
    if p > 0 {
      SelectedNone(table, p - 1, c);
    }
  }

  lemma QuietPollView(t: Tracked, x: Input, repaired: bool, r: Rule, m: nat)
    requires Shaped(t) && Polling(t, Turn(x)) && Front(t.app.table, r, m) && !Matches(r, x.Clock())
    ensures var u := TStep(t, Turn(x), repaired);
            u.app.sched == t.app.sched && ViewOf(u) == ViewOf(t).(phase := IDLE)
  {
    hide Matches, Selected;
    var p := Bound(x.readings, |t.app.table|, 0);
    BlankNeverMatches(x.Clock());
    assert Select(t.app.table, p, x.Clock()) == t.app.table;
    SelectedNone(t.app.table, p, x.Clock());
  }

  /** A matching poll that reads m selects exactly the first m entries. */
  lemma FrontPollView(t: Tracked, x: Input, repaired: bool, r: Rule, m: nat)
    requires Shaped(t) && Polling(t, Turn(x)) && Front(t.app.table, r, m) && m > 0 && Matches(r, x.Clock())
    requires forall j: nat :: x.readings(j) == m
    ensures var u := TStep(t, Turn(x), repaired);
            && u.app.sched == t.app.sched && u.app.phase == PROCESS
            && u.gen == t.gen && u.tableGen == t.tableGen && |u.app.table| == |t.app.table|
            && forall i :: 0 <= i < |t.app.table| ==>
                 u.app.table[i] == if i < m then t.app.table[i].(state := Waiting) else t.app.table[i]
  {
    hide Matches, Selected;
    var p := Bound(x.readings, |t.app.table|, 0);
    assert p > 0 ==> p - 1 < x.readings(p - 1);
    assert p == m;
    SelectedOne(t.app.table, p, x.Clock(), 0);
  }

  /** One turn at a given time, with the select loop reading a given count. */
  function TurnAt(now: nat, date: Date, live: nat): Label {
    Turn(Input(now, date, _ => live, _ => 0, _ => 0))
  }

  /** Every poll of the run reads exactly the live count. */
  ghost predicate ReadsLiveCount(t: Tracked, l: Label) {
    Polling(t, l) ==> forall j: nat :: l.x.readings(j) == Count(t.app.sched.bits)
  }

  // ---- the stale copy, with the repaired deletion ----

  /**
   The MQTT thread removes and adds rules between two reloads of the application: two rules are loaded, the first is
   replaced and its replacement removed before the announced reload, and another rule is added after it.
   */
  function TwinScript(k: nat, r: Rule, early: nat, now: nat, date: Date): Label {
    match k
    case 0 => TurnAt(early, date, 2)
    case 1 => TurnAt(early, date, 2)
    case 2 => Store(DeleteOp(0, 0))
    case 3 => Store(WriteOp(Image(r), Willing))
    case 4 => Update(MQTT_UPDATE_DATA)
    case 5 => Store(DeleteOp(0, 0))
    case 6 => TurnAt(early, date, 1)
    case 7 => TurnAt(early, date, 1)
    case 8 => TurnAt(early, date, 1)
    case 9 => Store(WriteOp(Image(r), Willing))
    case 10 => TurnAt(now, date, 2)
    case 11 => TurnAt(now, date, 2)
    case _ => Update(TIMEOUT)
  }

  function TwoRules(r: Rule): Cells { map[2 := Image(r), 3 := Image(r)] }

  /** Two or more slots of which only the first two are used; entries 0 and 1 come from the given slots. */
  ghost predicate Scene(t: Tracked, r: Rule, phase: Phase, flag: bool, first: bool, second: bool, s0: byte, s1: byte) {
    && Shaped(t) && |t.app.table| >= 2 && Stores(t.app.sched, r)
    && t.app.phase == phase && t.app.available && t.app.shouldUpdate == flag
    && t.app.sched.bits[0] == first && t.app.sched.bits[1] == second && NoneFrom(t.app.sched.bits, 2)
    && Front(t.app.table, r, 2) && t.app.table[0].fsIndex == s0 && t.app.table[1].fsIndex == s1
    && t.gen[1] == t.tableGen[1] == 0
  }

  /** The first two turns load both rules. */
  lemma FirstLoad(t0: Tracked, n: nat, x: Input, y: Input, r: Rule)
    requires 2 <= n < 0x100 && t0 == Start(TwoRules(r), n, _ => true) && forall k: nat :: y.faults(k) >= 0
    ensures Scene(TStep(TStep(t0, Turn(x), true), Turn(y), true), r, CHECK_RULES, false, true, true, 0, 1)
  {
    hide TStep, Step, Image, Slots, Start;
    StartView(TwoRules(r), n, _ => true);
    BlankStart(TwoRules(r), n);
    assert Stores(t0.app.sched, r);
    TwoSlots(t0.app.sched.bits);
    hide Stores;
    InitView(t0, x, true);
    var t1 := TStep(t0, Turn(x), true);
    LoadView(t1, y, true, r);
  }

  lemma BlankStart(cells: Cells, n: nat)
    requires 1 <= n < 0x100
    ensures Front(Start(cells, n, _ => true).app.table, BLANK, 0)
  {
  }

  /** The first rule is removed, a new one is written to its slot and announced, and removed again. */
  lemma ReplacedAndRemoved(t: Tracked, r: Rule)
    requires Scene(t, r, CHECK_RULES, false, true, true, 0, 1)
    ensures var t1 := TStep(t, Store(DeleteOp(0, 0)), true);
            var t2 := TStep(t1, Store(WriteOp(Image(r), Willing)), true);
            var t3 := TStep(t2, Update(MQTT_UPDATE_DATA), true);
            Scene(TStep(t3, Store(DeleteOp(0, 0)), true), r, CHECK_RULES, true, false, true, 0, 1)
  {
    hide TStep, Step, Image, Stores, Matches;
    DeleteView(t, 0, r);
    var t1 := TStep(t, Store(DeleteOp(0, 0)), true);
    WriteView(t1, 0, r);
    var t2 := TStep(t1, Store(WriteOp(Image(r), Willing)), true);
    FlagView(t2, true);
    DeleteView(TStep(t2, Update(MQTT_UPDATE_DATA), true), 0, r);
  }

  /** A poll that finds nothing, the IDLE turn that sees the flag, and the reload of the one rule left. */
  lemma ShorterReload(t: Tracked, x: Input, y: Input, z: Input, r: Rule)
    requires Scene(t, r, CHECK_RULES, true, false, true, 0, 1)
    requires !Matches(r, x.Clock()) && forall k: nat :: z.faults(k) >= 0
    ensures var u := TStep(TStep(TStep(t, Turn(x), true), Turn(y), true), Turn(z), true);
            Scene(u, r, CHECK_RULES, false, false, true, 1, 1) && u.tableGen[0] == 0
  {
    hide TStep, Step, Image, Slots, Stores, Matches;
    TwoSlots(t.app.sched.bits);
    QuietPollView(t, x, true, r, 2);
    var t1 := TStep(t, Turn(x), true);
    IdleView(t1, y, true);
    var t2 := TStep(t1, Turn(y), true);
    LoadView(t2, z, true, r);
  }

  /** Another rule makes the copy live. */
  lemma Refilled(t: Tracked, r: Rule)
    requires Scene(t, r, CHECK_RULES, false, false, true, 1, 1) && t.tableGen[0] == 0
    ensures var u := TStep(t, Store(WriteOp(Image(r), Willing)), true);
            Scene(u, r, CHECK_RULES, false, true, true, 1, 1) && u.tableGen[0] == 0
  {
    hide TStep, Step, Image, Stores, Matches;
    WriteView(t, 0, r);
  }

  /** Both copies are dispensed in one turn, and the deletion after the first succeeds. */
  lemma BothCopiesFed(t: Tracked, x: Input, y: Input, r: Rule)
    requires Scene(t, r, CHECK_RULES, false, true, true, 1, 1) && t.tableGen[0] == 0
    requires r.period == SPECIF && Matches(r, x.Clock()) && (forall j: nat :: x.readings(j) == 2) && y.erases(0) == 0
    ensures var u := TStep(t, Turn(x), true);
            && |u.app.table| == |t.app.table| && u.app.phase == PROCESS
            && Feeds(u.app, Turn(y), 0) && Feeds(u.app, Turn(y), 1)
            && Retires(u, y, true, 0) && IdOf(u, 0) == IdOf(u, 1)
  {
    hide TStep, Step, Matches, Stores;
    FrontPollView(t, x, true, r, 2);
    var u := TStep(t, Turn(x), true);
    assert Deletions(u.app.sched, u.app.table, y.erases, 0, true) == u.app.sched;
  }

  /** The labels of the script, and what leads from each state to the next. */
  lemma TwinLabels(r: Rule, early: nat, now: nat, date: Date)
    ensures TwinScript(0, r, early, now, date) == TwinScript(1, r, early, now, date) == TurnAt(early, date, 2)
    ensures TwinScript(2, r, early, now, date) == TwinScript(5, r, early, now, date) == Store(DeleteOp(0, 0))
    ensures TwinScript(3, r, early, now, date) == TwinScript(9, r, early, now, date) ==
            Store(WriteOp(Image(r), Willing))
    ensures TwinScript(4, r, early, now, date) == Update(MQTT_UPDATE_DATA)
    ensures TwinScript(6, r, early, now, date) == TwinScript(7, r, early, now, date) ==
            TwinScript(8, r, early, now, date) == TurnAt(early, date, 1)
    ensures TwinScript(10, r, early, now, date) == TwinScript(11, r, early, now, date) == TurnAt(now, date, 2)
    ensures forall k: nat :: k >= 12 ==> TwinScript(k, r, early, now, date) == Update(TIMEOUT)
  {
  }

  lemma Next(tr: TTrace, run: Run, repaired: bool, k: nat)
    requires Free(tr, run, repaired)
    ensures Shaped(tr(k)) && Shaped(tr(k + 1)) && tr(k + 1) == TStep(tr(k), run(k), repaired)
  {
    hide TStep, Step;
    var _, _ := run(k), run(k + 1);
  }

  /** What is known of the run before and after each poll. */
  lemma TwinStates(tr: TTrace, run: Run, n: nat, r: Rule, early: nat, now: nat, date: Date)
    requires 2 <= n < 0x100 && Free(tr, run, true) && tr(0) == Start(TwoRules(r), n, _ => true)
    requires forall k: nat :: run(k) == TwinScript(k, r, early, now, date)
    requires !Matches(r, At(early, date))
    ensures Scene(tr(6), r, CHECK_RULES, true, false, true, 0, 1)
    ensures Scene(tr(9), r, CHECK_RULES, false, false, true, 1, 1)
    ensures Scene(tr(10), r, CHECK_RULES, false, true, true, 1, 1) && tr(10).tableGen[0] == 0
  {
    hide TStep, Step, Image, Slots, Start, Matches, Free, Scene, TwinScript, TwoRules, Shaped;
    TwinLabels(r, early, now, date);
    Next(tr, run, true, 0);
    Next(tr, run, true, 1);
    FirstLoad(tr(0), n, run(0).x, run(1).x, r);
    Next(tr, run, true, 2);
    Next(tr, run, true, 3);
    Next(tr, run, true, 4);
    Next(tr, run, true, 5);
    ReplacedAndRemoved(tr(2), r);
    Next(tr, run, true, 6);
    Next(tr, run, true, 7);
    Next(tr, run, true, 8);
    ShorterReload(tr(6), run(6).x, run(7).x, run(8).x, r);
    Next(tr, run, true, 9);
    Refilled(tr(9), r);
  }

  lemma SceneCount(t: Tracked, r: Rule, phase: Phase, flag: bool, first: bool, second: bool, s0: byte, s1: byte)
    requires Scene(t, r, phase, flag, first, second, s0, s1)
    ensures Count(t.app.sched.bits) == (if first then 1 else 0) + (if second then 1 else 0)
  {
    hide Slots;
    TwoSlots(t.app.sched.bits);
  }

  /** Where the script polls. */
  lemma TwinPollsReadLiveCount(tr: TTrace, run: Run, n: nat, r: Rule, early: nat, now: nat, date: Date, k: nat)
    requires 2 <= n < 0x100 && Free(tr, run, true) && tr(0) == Start(TwoRules(r), n, _ => true)
    requires forall k: nat :: run(k) == TwinScript(k, r, early, now, date)
    requires !Matches(r, At(early, date)) && Matches(r, At(now, date))
    ensures ReadsLiveCount(tr(k), run(k))
  {
    hide TStep, Step, Image, Slots, Count, Start, Matches, Free, TwinScript, TwoRules, Stores;
    TwinLabels(r, early, now, date);
    TwinStates(tr, run, n, r, early, now, date);
    if k == 0 {
      StartView(TwoRules(r), n, _ => true);
    } else if k == 1 {
      StartView(TwoRules(r), n, _ => true);
      Next(tr, run, true, 0);
      InitView(tr(0), run(0).x, true);
    } else if k == 6 {
      SceneCount(tr(6), r, CHECK_RULES, true, false, true, 0, 1);
    } else if k == 7 || k == 8 {
      Next(tr, run, true, 6);
      QuietPollView(tr(6), run(6).x, true, r, 2);
      Next(tr, run, true, 7);
      IdleView(tr(7), run(7).x, true);
    } else if k == 10 {
      SceneCount(tr(10), r, CHECK_RULES, false, true, true, 1, 1);
    } else if k == 11 {
      Next(tr, run, true, 10);
      FrontPollView(tr(10), run(10).x, true, r, 2);
    } else {
      assert !run(k).Turn?;
    }
  }

  ghost predicate LiveReadings(tr: TTrace, run: Run) {
    forall k: nat {:trigger run(k)} :: ReadsLiveCount(tr(k), run(k))
  }

  /**
   For every number of slots above one: a run from the start of the device, with the repaired deletion and every poll
   reading the live count, in which a one-shot rule is dispensed twice although its deletion succeeded.
   */
  lemma TwinsRun(n: nat, r: Rule, early: nat, now: nat, date: Date) returns (tr: TTrace, run: Run)
    requires 2 <= n < 0x100 && r.period == SPECIF && !Matches(r, At(early, date)) && Matches(r, At(now, date))
    ensures Free(tr, run, true) && tr(0) == Start(TwoRules(r), n, _ => true) && LiveReadings(tr, run)
    ensures FeedsTwice(tr, run, true, 11, 0, 11, 1)
  {
    hide TStep, Step, Image, Slots, Start, Stores, Matches, Free, TwinScript, TwoRules, ReadsLiveCount, Retires;
    run := (k: nat) => TwinScript(k, r, early, now, date);
    tr := RunFrom(Start(TwoRules(r), n, _ => true), run, true);
    TwinLabels(r, early, now, date);
    TwinStates(tr, run, n, r, early, now, date);
    Next(tr, run, true, 10);
    BothCopiesFed(tr(10), run(10).x, run(11).x, r);
    forall k: nat ensures ReadsLiveCount(tr(k), run(k)) {
      TwinPollsReadLiveCount(tr, run, n, r, early, now, date, k);
    }
  }

  // ---- the restart, as written ----

  /** Dispense, restart in the same minute, dispense again. */
  function RestartScript(k: nat, now: nat, date: Date): Label {
    if k == 4 then Restart(_ => true) else if k <= 8 then TurnAt(now, date, 1) else Update(TIMEOUT)
  }

  function OneRule(r: Rule): Cells { map[2 := Image(r)] }

  /** Only the first slot is used, and RAM is still blank. */
  ghost predicate Booted(t: Tracked, cells: Cells) {
    && Shaped(t) && t.app.phase == INIT && !t.app.available && t.app.sched.cells == cells
    && t.app.sched.bits[0] == (RULES_ID_BASE in cells) && NoneFrom(t.app.sched.bits, 1)
    && Front(t.app.table, BLANK, 0) && t.gen[0] == 0
  }

  /** The rule is the first entry, just selected. */
  ghost predicate Picked(t: Tracked, r: Rule) {
    && Shaped(t) && t.app.phase == PROCESS && t.app.sched.cells == OneRule(r)
    && t.app.sched.bits[0] && NoneFrom(t.app.sched.bits, 1)
    && t.app.table[0] == Entry(r, Waiting, 0) && t.gen[0] == t.tableGen[0] == 0
    && forall i :: 1 <= i < |t.app.table| ==> t.app.table[i].state != Waiting
  }

  /** INIT, a load of one rule, and a poll that matches it; the poll reads the live count. */
  lemma LoadAndPollOne(t: Tracked, r: Rule, x: Input, y: Input, z: Input, repaired: bool)
    requires Booted(t, OneRule(r)) && Matches(r, z.Clock())
    requires (forall k: nat :: y.faults(k) >= 0) && forall j: nat :: z.readings(j) == 1
    ensures var t1 := TStep(t, Turn(x), repaired);
            var t2 := TStep(t1, Turn(y), repaired);
            && t1.app.phase == LOAD_RULES && ReadsLiveCount(t2, Turn(z))
            && Picked(TStep(t2, Turn(z), repaired), r)
  {
    hide TStep, Step, Image, Matches, Slots;
    assert Stores(t.app.sched, r);
    hide Stores;
    OneSlot(t.app.sched.bits);
    InitView(t, x, repaired);
    var t1 := TStep(t, Turn(x), repaired);
    LoadView(t1, y, repaired, r);
    var t2 := TStep(t1, Turn(y), repaired);
    FrontPollView(t2, z, repaired, r, 1);
  }

  /** With an empty store nothing is loaded, nothing polled and nothing dispensed. */
  lemma LoadNothing(t: Tracked, x: Input, y: Input, z: Input, repaired: bool)
    requires Booted(t, map[])
    ensures var t1 := TStep(t, Turn(x), repaired);
            var t2 := TStep(t1, Turn(y), repaired);
            && t1.app.phase == LOAD_RULES && !Polling(t2, Turn(z))
            && TStep(t2, Turn(z), repaired).app.phase == IDLE
  {
    hide Slots, Readable, Loaded;
    OneSlot(t.app.sched.bits);
  }

  lemma {:induction false} LoneDeletion(s: Sched, table: seq<Entry>, erases: nat -> int, m: nat, repaired: bool)
    requires 1 <= m <= |table| && IndicesFit(table, |s.bits|)
    requires forall j :: 1 <= j < |table| ==> table[j].state != Waiting
    requires table[0].state == Waiting && table[0].rule.period == SPECIF
    ensures Deletions(s, table, erases, m, repaired) == DeleteRule(s, table[0].fsIndex, erases(0), repaired).1
  {
    if m > 1 {
      LoneDeletion(s, table, erases, m - 1, repaired);
    }
  }

  lemma ProcessOne(t: Tracked, x: Input, repaired: bool, r: Rule)
    requires Picked(t, r) && r.period == SPECIF && x.erases(0) == 0
    ensures Feeds(t.app, Turn(x), 0) && Retires(t, x, repaired, 0)
    ensures TStep(t, Turn(x), repaired).app.sched.cells == if repaired then map[] else OneRule(r)
    ensures TStep(t, Turn(x), repaired).gen == t.gen
  {
    hide Image, Processed, Amounts;
    LoneDeletion(t.app.sched, t.app.table, x.erases, |t.app.table|, repaired);
    assert Deletions(t.app.sched, t.app.table, x.erases, 0, repaired) == t.app.sched;
  }

  /** A restart keeps flash and rebuilds the bitmap from it. */
  lemma RestartView(t: Tracked, l: Label, repaired: bool, r: Rule)
    requires Shaped(t) && l.Restart? && t.gen[0] == 0 && (forall i: nat :: l.answers(i))
    requires t.app.sched.cells == map[] || t.app.sched.cells == OneRule(r)
    ensures Booted(TStep(t, l, repaired), t.app.sched.cells)
  {
    hide Image;
  }

  lemma StartBooted(n: nat, r: Rule)
    requires 1 <= n < 0x100
    ensures Booted(Start(OneRule(r), n, _ => true), OneRule(r))
  {
    hide Image, Start;
    StartView(OneRule(r), n, _ => true);
    BlankStart(OneRule(r), n);
  }

  lemma RestartLabels(now: nat, date: Date)
    ensures forall k: nat :: k <= 8 && k != 4 ==> RestartScript(k, now, date) == TurnAt(now, date, 1)
    ensures RestartScript(4, now, date).Restart? && forall i: nat :: RestartScript(4, now, date).answers(i)
    ensures forall k: nat :: k >= 9 ==> RestartScript(k, now, date) == Update(TIMEOUT)
  {
  }

  /** The states of the run that matter. */
  lemma RestartStates(tr: TTrace, run: Run, n: nat, r: Rule, now: nat, date: Date, repaired: bool)
    requires 1 <= n < 0x100 && r.period == SPECIF && Matches(r, At(now, date))
    requires Free(tr, run, repaired) && tr(0) == Start(OneRule(r), n, _ => true)
    requires forall k: nat :: run(k) == RestartScript(k, now, date)
    ensures Picked(tr(3), r) && run(3).Turn? && Retires(tr(3), run(3).x, repaired, 0)
    ensures if repaired then Shaped(tr(8)) && tr(8).app.phase == IDLE else Picked(tr(8), r)
    ensures tr(0).app.phase == INIT && tr(1).app.phase == LOAD_RULES && ReadsLiveCount(tr(2), run(2))
    ensures tr(5).app.phase == INIT && tr(6).app.phase == LOAD_RULES && ReadsLiveCount(tr(7), run(7))
  {
    hide TStep, Step, Image, Slots, Start, Matches, Free, RestartScript, Retires, ReadsLiveCount, OneRule;
    RestartLabels(now, date);
    StartBooted(n, r);
    Next(tr, run, repaired, 0);
    Next(tr, run, repaired, 1);
    Next(tr, run, repaired, 2);
    LoadAndPollOne(tr(0), r, run(0).x, run(1).x, run(2).x, repaired);
    Next(tr, run, repaired, 3);
    ProcessOne(tr(3), run(3).x, repaired, r);
    Next(tr, run, repaired, 4);
    RestartView(tr(4), run(4), repaired, r);
    Next(tr, run, repaired, 5);
    Next(tr, run, repaired, 6);
    Next(tr, run, repaired, 7);
    if repaired {
      LoadNothing(tr(5), run(5).x, run(6).x, run(7).x, repaired);
      assert ReadsLiveCount(tr(7), run(7)) by { NoPollReadsLive(tr(7), run(7)); }
    } else {
      LoadAndPollOne(tr(5), r, run(5).x, run(6).x, run(7).x, repaired);
    }
  }

  lemma NoPollReadsLive(t: Tracked, l: Label)
    requires !Polling(t, l)
    ensures ReadsLiveCount(t, l)
  {
  }

  /**
   For every number of slots: a run from the start of the device, every poll reading the live count, in which a one-shot
   rule whose deletion succeeded is dispensed again after a restart in the same minute iff the deletion is as written.
   */
  lemma RestartFeedsAgainIff(n: nat, r: Rule, now: nat, date: Date, repaired: bool) returns (tr: TTrace, run: Run)
    requires 1 <= n < 0x100 && r.period == SPECIF && Matches(r, At(now, date))
    ensures Free(tr, run, repaired) && tr(0) == Start(OneRule(r), n, _ => true) && LiveReadings(tr, run)
    ensures Picked(tr(3), r) && run(3).Turn? && Retires(tr(3), run(3).x, repaired, 0) && run(4).Restart?
    ensures FeedsTwice(tr, run, repaired, 3, 0, 8, 0) <==> !repaired
  {
    hide TStep, Step, Image, Slots, Start, Matches, Free, RestartScript, Retires, ReadsLiveCount, OneRule;
    run := (k: nat) => RestartScript(k, now, date);
    tr := RunFrom(Start(OneRule(r), n, _ => true), run, repaired);
    RestartLabels(now, date);
    RestartStates(tr, run, n, r, now, date, repaired);
    forall k: nat ensures ReadsLiveCount(tr(k), run(k)) {
      if k != 2 && k != 7 {
        assert k == 0 || k == 1 || k == 3 || k == 5 || k == 6 || k == 8 || !run(k).Turn?;
        NoPollReadsLive(tr(k), run(k));
      }
    }
  }

  // ---- the configurations in which one-shot rules are safe ----

  /** In every run from the start of the device with polls reading the live count, at most once. */
  ghost predicate AtMostOnceAlways(n: nat, repaired: bool)
    requires 1 <= n < 0x100
  {
    forall tr: TTrace, run: Run, cells: Cells, answers: nat -> bool, first: nat, i: nat, second: nat, j: nat
        {:trigger FeedsTwice(tr, run, repaired, first, i, second, j), Start(cells, n, answers)} ::
      Free(tr, run, repaired) && tr(0) == Start(cells, n, answers) && NoEmptyCell(cells) && LiveReadings(tr, run) ==>
        !FeedsTwice(tr, run, repaired, first, i, second, j)
  }

  /** A one-shot rule for midnight, and one day on which it matches. */
  const MIDNIGHT: Rule := Rule(2025, 1, 1, 0, 0, SPECIF, 0, 1)

  lemma MidnightMatches()
    ensures Matches(MIDNIGHT, At(86400, Date(2025, 1, 1))) && !Matches(MIDNIGHT, At(86390, Date(2025, 1, 1)))
  {
    assert At(86400, Date(2025, 1, 1)).hour == 0 && At(86400, Date(2025, 1, 1)).minute == 0;
    assert At(86390, Date(2025, 1, 1)).hour == 23;
  }

  lemma RulesNotEmpty(r: Rule)
    ensures NoEmptyCell(OneRule(r)) && NoEmptyCell(TwoRules(r))
  {
  }

  /** A one-shot rule is dispensed at most once in all runs exactly with the repaired deletion and a single slot. */
  lemma AtMostOnceIff(n: nat, repaired: bool)
    requires 1 <= n < 0x100
    ensures AtMostOnceAlways(n, repaired) <==> repaired && n == 1
  {
    hide Free, Start, FeedsTwice, LiveReadings, NoEmptyCell, OneRule, TwoRules, Matches, Picked, Retires;
    MidnightMatches();
    RulesNotEmpty(MIDNIGHT);
    if !repaired {
      var tr, run := RestartFeedsAgainIff(n, MIDNIGHT, 86400, Date(2025, 1, 1), false);
    } else if n > 1 {
      var tr, run := TwinsRun(n, MIDNIGHT, 86390, 86400, Date(2025, 1, 1));
    } else {
      forall tr: TTrace, run: Run, cells: Cells, answers: nat -> bool, first: nat, i: nat, second: nat, j: nat
        | Free(tr, run, repaired) && tr(0) == Start(cells, n, answers) && NoEmptyCell(cells)
        ensures !FeedsTwice(tr, run, repaired, first, i, second, j)
      {
        OneSlotFeedsOnce(tr, run, cells, answers, first, i, second, j);
      }
    }
  }
}
