/**
 No rule update is lost: the MQTT thread stores a rule and announces it, the dispatcher raises a flag, and the
 application thread reloads its table, each in its own small steps and in any interleaving.
 */
module RuleUpdates {
  import opened Types

  /** Where the MQTT thread stands in `on_mqtt_add_rule_topic`. */
  datatype Writer =
    | Free
    | Stored(slot: nat)   // zms_write done, bit not yet set
    | Marked(slot: nat)   // write_rule has returned, MQTT_UPDATE_DATA not yet queued

  /** Where the dispatcher stands: between `k_msgq_get` and the end of `Notify` it holds a message. */
  datatype Dispatcher = Waits | Delivers(msg: Msg)

  /** Where the application thread stands in `app` and `read_rules`. */
  datatype Reader =
    | Starting            // INIT, before the flag is cleared
    | LoadDue             // state == LOAD_RULES
    | Testing(slot: nat)  // read_rules, before it tests the bit of this slot
    | Reading(slot: nat)  // read_rules, between that test and the read
    | Elsewhere           // CHECK_RULES, PROCESS, or IDLE before it reads the flag
    | Reloading           // IDLE, the flag was seen, not yet cleared

  /**
   `gen[k]` counts the rules stored in slot k; `ram` maps the slots read so far to the rule that was read; `cut` is the
   slot whose read ended the last load, past the last slot if none did.
   */
  datatype World = World(
    bits: seq<bool>, gen: seq<nat>,
    writer: Writer, queue: Queue, dispatcher: Dispatcher,
    flag: bool, reader: Reader, ram: map<nat, nat>, cut: nat)

  ghost predicate WellFormed(w: World) {
    && |w.bits| == |w.gen|
    && (w.writer.Stored? || w.writer.Marked? ==> w.writer.slot < |w.bits|)
    && (w.reader.Testing? ==> w.reader.slot <= |w.bits|)
    && (w.reader.Reading? ==> w.reader.slot < |w.bits|)
  }

  datatype Label =
    | StoreRule(slot: nat)    // MQTT thread: write_buffer succeeds in a free slot
    | MarkRule                // MQTT thread: the bit is set
    | Announce                // MQTT thread: notify_evt
    | OtherMessage(msg: Msg)  // any thread queues another message
    | Remove(slot: nat)       // any thread clears a slot (remove topic, clear, one-shot deletion)
    | Fetch                   // dispatcher: k_msgq_get
    | Deliver                 // dispatcher: Application::Update
    | Begin                   // application: INIT, or the start of LOAD_RULES up to the count test
    | TestSlot                // application: one bit test of read_rules, or its end
    | ReadSlot(fails: bool)   // application: the read of a slot whose bit was set
    | SeeFlag                 // application: IDLE reads the flag
    | ClearFlag               // application: IDLE has set LOAD_RULES and clears the flag

  const UPDATE: Msg := Msg(MQTT_UPDATE_DATA, MQTT_EVT)

  predicate AnyBit(bits: seq<bool>) { exists k :: 0 <= k < |bits| && bits[k] }

  /** A label that is not enabled changes nothing. */
  ghost function Step(w: World, l: Label): (v: World)
    requires WellFormed(w)
    ensures WellFormed(v) && |v.bits| == |w.bits|
  {
    match l
    case StoreRule(k) =>
      if w.writer.Free? && k < |w.bits| && !w.bits[k]
      then w.(gen := w.gen[k := w.gen[k] + 1], writer := Stored(k)) else w
    case MarkRule =>
      if w.writer.Stored? then w.(bits := w.bits[w.writer.slot := true], writer := Marked(w.writer.slot)) else w
    case Announce =>
      if w.writer.Marked? then w.(queue := w.queue.Put(UPDATE), writer := Free) else w
    case OtherMessage(m) => w.(queue := w.queue.Put(m))
    case Remove(k) =>
      if k < |w.bits| then w.(bits := w.bits[k := false]) else w
    case Fetch =>
      if w.dispatcher.Waits? && w.queue.msgs != []
      then w.(dispatcher := Delivers(w.queue.msgs[0]), queue := w.queue.(msgs := w.queue.msgs[1..])) else w
    case Deliver =>
      if w.dispatcher.Delivers?
      then w.(flag := w.flag || w.dispatcher.msg.evt == MQTT_UPDATE_DATA, dispatcher := Waits) else w
    case Begin =>
      if w.reader.Starting? then w.(flag := false, reader := LoadDue)
      else if w.reader.LoadDue? then
        if AnyBit(w.bits) then w.(reader := Testing(0), ram := map[], cut := |w.bits|)
        else w.(reader := Elsewhere, ram := map[], cut := |w.bits|)
      else w
    case TestSlot =>
      if w.reader.Testing? then
        var k := w.reader.slot;
        if k == |w.bits| then w.(reader := Elsewhere)
        else if w.bits[k] then w.(reader := Reading(k))
        else w.(reader := Testing(k + 1))
      else w
    case ReadSlot(fails) =>
      if w.reader.Reading? then
        var k := w.reader.slot;
        if fails then w.(reader := Elsewhere, cut := k)
        else w.(reader := Testing(k + 1), ram := w.ram[k := w.gen[k]])
      else w
    case SeeFlag =>
      if w.reader.Elsewhere? && w.flag then w.(reader := Reloading) else w
    case ClearFlag =>
      if w.reader.Reloading? then w.(flag := false, reader := LoadDue) else w
  }

  /** The rule of slot k is completely added but is not the one in the RAM table. */
  ghost predicate Missing(w: World, k: nat)
    requires WellFormed(w)
  {
    k < |w.bits| && w.bits[k] && !(k in w.ram && w.ram[k] == w.gen[k])
  }

  /** A load will still visit slot k. */
  predicate DueFor(r: Reader, k: nat) {
    match r
    case Starting | LoadDue | Reloading => true
    case Testing(i) => i <= k
    case Reading(i) => i <= k
    case Elsewhere => false
  }

  /** Something still on its way will make the application read slot k. */
  ghost predicate Signalled(w: World, k: nat) {
    || w.writer == Marked(k)
    || w.queue.Holds(MQTT_UPDATE_DATA)
    || (w.dispatcher.Delivers? && w.dispatcher.msg.evt == MQTT_UPDATE_DATA)
    || w.flag
    || DueFor(w.reader, k)
  }

  ghost predicate NoneLost(w: World)
    requires WellFormed(w)
  {
    forall k :: Missing(w, k) ==> Signalled(w, k) || w.cut <= k || w.queue.dropped
  }

  ghost predicate Inv(w: World) {
    && WellFormed(w) && NoneLost(w)
    && (w.reader.Testing? || w.reader.Reading? ==> w.cut >= |w.bits|)
  }

  lemma PutHolds(q: Queue, m: Msg, e: Event)
    ensures m.evt == e ==> q.Put(m).Holds(e) || q.Put(m).dropped
    ensures q.Holds(e) ==> q.Put(m).Holds(e)
    ensures q.dropped ==> q.Put(m).dropped
  {
    if |q.msgs| < QUEUE_DEPTH {
      assert q.Put(m).msgs[|q.msgs|] == m;
      if q.Holds(e) {
        var i :| 0 <= i < |q.msgs| && q.msgs[i].evt == e;
        assert q.Put(m).msgs[i].evt == e;
      }
    }
  }

  lemma TakeHolds(q: Queue, e: Event)
    requires q.msgs != [] && q.Holds(e)
    ensures q.msgs[0].evt == e || q.(msgs := q.msgs[1..]).Holds(e)
  {
    var i :| 0 <= i < |q.msgs| && q.msgs[i].evt == e;
    if i > 0 {
      assert q.msgs[1..][i - 1].evt == e;
    }
  }

  lemma StepKeeps(w: World, l: Label)
    requires Inv(w)
    ensures Inv(Step(w, l))
  {
    hide Queue.Put, Queue.Holds;
    var v := Step(w, l);
    forall k | Missing(v, k) ensures Signalled(v, k) || v.cut <= k || v.queue.dropped {
      assert !Missing(w, k) || Signalled(w, k) || w.cut <= k || w.queue.dropped;
      match l
      case Announce => PutHolds(w.queue, UPDATE, MQTT_UPDATE_DATA);
      case OtherMessage(m) => PutHolds(w.queue, m, MQTT_UPDATE_DATA);
      case Fetch =>
        if w.queue.msgs != [] && w.queue.Holds(MQTT_UPDATE_DATA) {
          TakeHolds(w.queue, MQTT_UPDATE_DATA);
        }
      case _ =>
    }
  }

  // ---- runs ----

  /** The world when the application thread starts: `init` has rebuilt the bitmap, nothing is in RAM. */
  ghost predicate Initial(w: World) {
    WellFormed(w) && w.reader == Starting && w.ram == map[]
  }

  ghost predicate Behavior(tr: nat -> World, run: nat -> Label) {
    && Initial(tr(0))
    && forall k: nat {:trigger run(k)} :: WellFormed(tr(k)) && tr(k + 1) == Step(tr(k), run(k))
  }

  lemma {:induction false} InvAlways(tr: nat -> World, run: nat -> Label, n: nat)
    requires Behavior(tr, run)
    ensures Inv(tr(n))
  {
    hide Step, NoneLost;
    if n > 0 {
      InvAlways(tr, run, n - 1);
      StepKeeps(tr(n - 1), run(n - 1));
    } else {
      InitialInv(tr(0));
    }
  }

  lemma InitialInv(w: World)
    requires Initial(w)
    ensures Inv(w)
  {
  }

  /**
   In every interleaving, as long as no message was dropped: a completely added rule that is not in the RAM table is
   still announced, queued, delivered, flagged or due, unless a failing read cut the last load short at or before it.
   */
  lemma NoUpdateLost(tr: nat -> World, run: nat -> Label, n: nat, k: nat)
    requires Behavior(tr, run)
    requires WellFormed(tr(n)) && Missing(tr(n), k) && !tr(n).queue.dropped && tr(n).cut > k
    ensures Signalled(tr(n), k)
  {
    InvAlways(tr, run, n);
  }

  /** All threads are idle and nothing is on its way. */
  predicate Settled(w: World) {
    w.writer.Free? && w.queue.msgs == [] && w.dispatcher.Waits? && !w.flag && w.reader.Elsewhere?
  }

  /** Once everything has settled, the stored rules before the slot whose read failed, if one did, are those in RAM. */
  lemma SettledTableIsCurrent(tr: nat -> World, run: nat -> Label, n: nat, k: nat)
    requires Behavior(tr, run) && Settled(tr(n)) && !tr(n).queue.dropped && tr(n).cut > k
    requires k < |tr(n).bits| && tr(n).bits[k]
    ensures k < |tr(n).gen| && k in tr(n).ram && tr(n).ram[k] == tr(n).gen[k]
  {
    InvAlways(tr, run, n);
    if Missing(tr(n), k) {
      NoUpdateLost(tr, run, n, k);
    }
  }

  // ---- when an update is lost ----

  /** An announcement of rule k reaches the application exactly if it is queued or something else is on its way. */
  lemma AnnouncementSignalsIff(w: World, k: nat)
    requires WellFormed(w) && w.writer == Marked(k)
    ensures Signalled(Step(w, Announce), k) <==>
            || |w.queue.msgs| < QUEUE_DEPTH
            || w.queue.Holds(MQTT_UPDATE_DATA)
            || (w.dispatcher.Delivers? && w.dispatcher.msg.evt == MQTT_UPDATE_DATA)
            || w.flag
            || DueFor(w.reader, k)
  {
    if |w.queue.msgs| < QUEUE_DEPTH {
      assert w.queue.Put(UPDATE).msgs[|w.queue.msgs|] == UPDATE;
    }
  }

  /** The read a load makes of a missing rule leaves it missing exactly if it fails. */
  lemma ReadLosesIff(w: World, k: nat, fails: bool)
    requires WellFormed(w) && w.reader == Reading(k) && Missing(w, k)
    ensures Missing(Step(w, ReadSlot(fails)), k) <==> fails
    ensures !DueFor(Step(w, ReadSlot(fails)).reader, k)
  {
  }

  /** A removal signals nothing: what is on its way for any slot is exactly what was on its way before. */
  lemma RemovalSignalsNothing(w: World, removed: nat, k: nat)
    requires WellFormed(w)
    ensures Signalled(Step(w, Remove(removed)), k) <==> Signalled(w, k)
  {
  }

  /** Nothing on its way will make the application read slot k. */
  ghost predicate Unnoticed(w: World, k: nat) {
    && !w.queue.Holds(MQTT_UPDATE_DATA)
    && !(w.dispatcher.Delivers? && w.dispatcher.msg.evt == MQTT_UPDATE_DATA)
    && !w.flag
    && !DueFor(w.reader, k)
  }

  /** The step announces no update. */
  predicate Silent(w: World, l: Label) {
    && !(l.Announce? && w.writer.Marked?)
    && !(l.OtherMessage? && l.msg.evt == MQTT_UPDATE_DATA)
  }

  /** RAM holds the same about slot k. */
  predicate SameInRam(w: World, v: World, k: nat) {
    (k in w.ram <==> k in v.ram) && (k in w.ram ==> w.ram[k] == v.ram[k])
  }

  lemma SilentStep(w: World, l: Label, k: nat)
    requires WellFormed(w) && Unnoticed(w, k) && Silent(w, l)
    ensures Unnoticed(Step(w, l), k) && SameInRam(w, Step(w, l), k)
    ensures Missing(w, k) && l != Remove(k) ==> Missing(Step(w, l), k)
  {
    match l
    case OtherMessage(m) => PutHoldsOnly(w.queue, m, MQTT_UPDATE_DATA);
    case Fetch =>
      if w.queue.msgs != [] {
        assert w.queue.msgs[0].evt != MQTT_UPDATE_DATA;
        assert forall i :: 0 <= i < |w.queue.msgs| - 1 ==> w.queue.msgs[1..][i] == w.queue.msgs[i + 1];
      }
    case _ =>
  }

  lemma PutHoldsOnly(q: Queue, m: Msg, e: Event)
    requires m.evt != e && !q.Holds(e)
    ensures !q.Put(m).Holds(e)
  {
  }

  /** Any sequence of steps. */
  ghost predicate Steps(tr: nat -> World, run: nat -> Label) {
    forall k: nat {:trigger run(k)} :: WellFormed(tr(k)) && tr(k + 1) == Step(tr(k), run(k))
  }

  /** Without a new announcement, what is unnoticed stays so and RAM keeps what it has, in every continuation. */
  lemma {:induction false} UnnoticedForGood(tr: nat -> World, run: nat -> Label, n: nat, m: nat, k: nat)
    requires Steps(tr, run) && n <= m && WellFormed(tr(n)) && Unnoticed(tr(n), k)
    requires forall j {:trigger run(j)} :: n <= j < m ==> Silent(tr(j), run(j))
    ensures WellFormed(tr(m)) && Unnoticed(tr(m), k) && SameInRam(tr(n), tr(m), k)
    ensures Missing(tr(n), k) && (forall j {:trigger run(j)} :: n <= j < m ==> run(j) != Remove(k)) ==>
              Missing(tr(m), k)
    decreases m - n
  {
    hide Step, Unnoticed, Silent;
    var _ := run(m);
    if n < m {
      UnnoticedForGood(tr, run, n, m - 1, k);
      SilentStep(tr(m - 1), run(m - 1), k);
    }
  }

  /** An announcement into a full queue with nothing else on its way: the rule stays missing until another update. */
  lemma FullQueueLosesUpdate(tr: nat -> World, run: nat -> Label, n: nat, m: nat, k: nat)
    requires Steps(tr, run) && n < m && WellFormed(tr(n)) && run(n) == Announce
    requires tr(n).writer == Marked(k) && Missing(tr(n), k)
    requires |tr(n).queue.msgs| >= QUEUE_DEPTH && Unnoticed(tr(n), k)
    requires forall j {:trigger run(j)} :: n < j < m ==> Silent(tr(j), run(j)) && run(j) != Remove(k)
    ensures WellFormed(tr(m)) && Missing(tr(m), k)
  {
    assert tr(n + 1) == Step(tr(n), run(n));
    var _ := run(n + 1);
    hide Step;
    UnnoticedForGood(tr, run, n + 1, m, k);
  }

  /** A failed read with nothing else on its way: likewise. */
  lemma FailedReadLosesUpdate(tr: nat -> World, run: nat -> Label, n: nat, m: nat, k: nat)
    requires Steps(tr, run) && n < m && WellFormed(tr(n)) && run(n) == ReadSlot(true)
    requires tr(n).reader == Reading(k) && Missing(tr(n), k)
    requires Unnoticed(tr(n).(reader := Elsewhere), k)
    requires forall j {:trigger run(j)} :: n < j < m ==> Silent(tr(j), run(j)) && run(j) != Remove(k)
    ensures WellFormed(tr(m)) && Missing(tr(m), k)
  {
    assert tr(n + 1) == Step(tr(n), run(n));
    ReadLosesIff(tr(n), k, true);
    var _ := run(n + 1);
    hide Step;
    UnnoticedForGood(tr, run, n + 1, m, k);
  }

  /** A removal with nothing on its way: RAM keeps the removed rule until another update. */
  lemma RemovalGoesUnseen(tr: nat -> World, run: nat -> Label, n: nat, m: nat, k: nat)
    requires Steps(tr, run) && n < m && WellFormed(tr(n)) && run(n) == Remove(k)
    requires Unnoticed(tr(n), k)
    requires forall j {:trigger run(j)} :: n < j < m ==> Silent(tr(j), run(j))
    ensures SameInRam(tr(n), tr(m), k)
  {
    UnnoticedForGood(tr, run, n, m, k);
  }

  // ---- everything on its way arrives ----

  /** A step of the protocol itself: no new rule, message or removal. */
  predicate Own(l: Label) { !l.StoreRule? && !l.OtherMessage? && !l.Remove? }

  function ReaderWork(r: Reader, n: nat): int {
    match r
    case Starting | Reloading => 2 * n + 3
    case LoadDue => 2 * n + 2
    case Testing(k) => 2 * (n - k) + 1
    case Reading(k) => 2 * (n - k)
    case Elsewhere => 0
  }

  function WriterWork(w: Writer, n: nat): nat {
    match w
    case Stored(_) => 4 * n + 14
    case Marked(_) => 2 * n + 7
    case Free => 0
  }

  /** How many steps the protocol can still take. */
  function Work(w: World): int {
    var n := |w.bits|;
    WriterWork(w.writer, n) + |w.queue.msgs| * (2 * n + 6) + (if w.dispatcher.Delivers? then 2 * n + 5 else 0)
      + (if w.flag && !w.reader.Reloading? then 2 * n + 4 else 0) + ReaderWork(w.reader, n)
  }

  lemma WorkIsNatural(w: World)
    requires WellFormed(w)
    ensures Work(w) >= 0
  {
  }

  lemma OneMessage(m: nat, unit: nat)
    ensures (m + 1) * unit == m * unit + unit
  {
  }

  /** Every step of the protocol that does anything leaves less to do. */
  lemma OwnStepWorks(w: World, l: Label)
    requires WellFormed(w) && Own(l) && Step(w, l) != w
    ensures Work(Step(w, l)) < Work(w)
  {
    var unit := 2 * |w.bits| + 6;
    OneMessage(|w.queue.msgs|, unit);
    if |w.queue.msgs| > 0 {
      OneMessage(|w.queue.msgs| - 1, unit);
    }
  }

  /** Unless everything is settled some step of the protocol, with all reads working, does something. */
  lemma SomethingToDo(w: World) returns (l: Label)
    requires WellFormed(w) && !Settled(w)
    ensures Own(l) && l != ReadSlot(true) && Step(w, l) != w
  {
    if w.writer.Stored? {
      l := MarkRule;
    } else if w.writer.Marked? {
      l := Announce;
    } else if w.dispatcher.Delivers? {
      l := Deliver;
    } else if w.queue.msgs != [] {
      l := Fetch;
    } else {
      match w.reader
      case Starting | LoadDue => l := Begin;
      case Testing(_) => l := TestSlot;
      case Reading(_) => l := ReadSlot(false);
      case Elsewhere => l := SeeFlag;
      case Reloading => l := ClearFlag;
    }
  }

  /** From step n on only the protocol steps, no read fails, and no step is idle unless everything is settled. */
  ghost predicate Busy(tr: nat -> World, run: nat -> Label, n: nat) {
    forall j: nat {:trigger run(j)} :: n <= j ==>
      Own(run(j)) && run(j) != ReadSlot(true) && (WellFormed(tr(j)) && !Settled(tr(j)) ==> tr(j + 1) != tr(j))
  }

  lemma SettledStays(w: World, l: Label)
    requires WellFormed(w) && Settled(w) && Own(l)
    ensures Step(w, l) == w
  {
  }

  lemma {:induction false} BusySettles(tr: nat -> World, run: nat -> Label, n: nat, m: nat)
    requires Steps(tr, run) && Busy(tr, run, n) && n <= m
    ensures WellFormed(tr(m)) && (Settled(tr(m)) || Work(tr(m)) + (m - n) <= Work(tr(n)))
    decreases m - n
  {
    hide Step, Work, Settled, Own;
    var _ := run(m);
    if n < m {
      BusySettles(tr, run, n, m - 1);
      var w, l := tr(m - 1), run(m - 1);
      assert tr(m - 1 + 1) == Step(w, l);
      if Settled(w) {
        SettledStays(w, l);
      } else {
        OwnStepWorks(w, l);
      }
    }
  }

  /** What the protocol steps keep. */
  lemma OwnKeepsBit(w: World, l: Label, k: nat)
    requires WellFormed(w) && Own(l) && k < |w.bits| && w.bits[k]
    ensures k < |Step(w, l).bits| && Step(w, l).bits[k]
  {
  }

  lemma {:induction false} BusyKeepsBit(tr: nat -> World, run: nat -> Label, n: nat, m: nat, k: nat)
    requires Steps(tr, run) && Busy(tr, run, n) && n <= m && k < |tr(n).bits| && tr(n).bits[k]
    ensures k < |tr(m).bits| && tr(m).bits[k]
    decreases m - n
  {
    hide Step, Settled, Own;
    if n < m {
      BusyKeepsBit(tr, run, n, m - 1, k);
      var _ := run(m - 1);
      assert tr(m - 1 + 1) == Step(tr(m - 1), run(m - 1));
      OwnKeepsBit(tr(m - 1), run(m - 1), k);
    }
  }

  /**
   In any interleaving of the protocol's own steps with working reads, after at most `Work` steps everything is settled,
   and every completely added rule is the one in RAM.
   */
  lemma AddedRuleArrives(tr: nat -> World, run: nat -> Label, n: nat, m: nat, k: nat)
    requires Behavior(tr, run) && Busy(tr, run, n) && n <= m && WellFormed(tr(n)) && m - n > Work(tr(n))
    requires k < |tr(n).bits| && tr(n).bits[k] && !tr(m).queue.dropped && tr(m).cut > k
    ensures Settled(tr(m)) && k < |tr(m).gen| && k in tr(m).ram && tr(m).ram[k] == tr(m).gen[k]
  {
    hide Step, Work, Settled, Own;
    assert Steps(tr, run) by {
      forall j: nat ensures WellFormed(tr(j)) && tr(j + 1) == Step(tr(j), run(j)) {
        var _ := run(j);
      }
    }
    BusySettles(tr, run, n, m);
    WorkIsNatural(tr(m));
    BusyKeepsBit(tr, run, n, m, k);
    SettledTableIsCurrent(tr, run, m, k);
  }
}
