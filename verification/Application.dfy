/** `Application` and `StepperController`: the feeding thread, proved against the turns of `Feeding`. */
module Application {
  import opened Types
  import opened RuleClock
  import opened Storage
  import opened SchedulerRules
  import opened Feeding
  import Scheduler

  /** What the thread asked to sleep, in microseconds, since the watchdog was last fed. */
  class SleepMeter {
    var asked: nat

    constructor ()
      ensures asked == 0
    {
      asked := 0;
    }

    method Sleep(us: nat)
      modifies this
      ensures asked == old(asked) + us
    {
      asked := asked + us;
    }

    method Feed()
      modifies this
      ensures asked == 0
    {
      asked := 0;
    }
  }

  class StepperController {
    const meter: SleepMeter
    var toggles: nat
    var enablePin: int

    constructor (meter: SleepMeter)
      ensures this.meter == meter && toggles == 0
    {
      this.meter := meter;
      toggles, enablePin := 0, 1;
    }

    /** One toggle and one sleep per step; nothing for an amount that is not positive; the pin is left at 1. */
    method MoveFor(amount: int)
      modifies this, meter
      ensures var steps := if amount > 0 then amount else 0;
              toggles == old(toggles) + steps && meter.asked == old(meter.asked) + STEP_US * steps
      ensures enablePin == 1
    {
      enablePin := 0;
      var i := 0;
      while i < amount
        invariant 0 <= i && (amount > 0 ==> i <= amount) && (amount <= 0 ==> i == 0)
        invariant toggles == old(toggles) + i && meter.asked == old(meter.asked) + STEP_US * i
      {
        toggles := toggles + 1;
        meter.Sleep(STEP_US);
        i := i + 1;
      }
      enablePin := 1;
    }
  }

  class Application {
    const table: array<Entry>
    const rules: SchedulerRules
    const motor: StepperController
    const guard: SleepMeter
    var phase: Phase
    var isRulesAvailable: bool
    var shouldUpdateRules: bool

    constructor (rules: SchedulerRules, motor: StepperController, guard: SleepMeter)
      requires rules.Valid() && 1 <= rules.map_.Length < 0x100 && motor.meter == guard
      ensures Valid() && fresh(table)
      ensures this.rules == rules && this.motor == motor && this.guard == guard
      ensures phase == INIT && !isRulesAvailable && !shouldUpdateRules
    {
      this.rules := rules;
      this.motor := motor;
      this.guard := guard;
      table := new Entry[rules.map_.Length](_ => Entry(Rule(0, 0, 0, 0, 0, WEEKLY, 0, 0), Ready, 0));
      phase, isRulesAvailable, shouldUpdateRules := INIT, false, false;
    }

    ghost predicate Valid()
      reads this, table, rules, rules.fs
    {
      && rules.Valid() && motor.meter == guard
      && 1 <= table.Length == rules.map_.Length < 0x100
      && IndicesFit(table[..], table.Length)
    }

    ghost function Model(): (a: App)
      requires Valid()
      reads this, table, rules, rules.fs, rules.map_, motor, guard
      ensures WellFormed(a)
    {
      App(phase, table[..], isRulesAvailable, shouldUpdateRules, rules.Model(), motor.toggles, guard.asked)
    }

    /** The events another thread delivers; the amount of MQTT_FEED_NOW is not part of this model. */
    method Update(evt: Event)
      requires Valid()
      modifies this`shouldUpdateRules
      ensures Valid() && Model() == old(Model()).(shouldUpdate := old(shouldUpdateRules) || evt == MQTT_UPDATE_DATA)
    {
      if evt == MQTT_UPDATE_DATA {
        shouldUpdateRules := true;
      }
    }

    method GetRules(faults: nat -> int) returns (ret: int)
      requires Valid()
      modifies table, this`isRulesAvailable
      ensures Valid()
      ensures (ret, table[..]) == Scheduler.ReadRules(rules.Model(), old(table[..]), faults)
      ensures isRulesAvailable == (old(isRulesAvailable) || ret == 0)
    {
      ret := rules.ReadRules(table, faults);
      LoadKeepsIndices(rules.Model(), old(table[..]), faults);
      if ret == 0 {
        isRulesAvailable := true;
      }
    }

    method SelectRulesToExecute(readings: nat -> nat, c: Clock) returns (idx: byte)
      requires Valid()
      modifies table
      ensures Valid()
      ensures var p := Bound(readings, table.Length, 0);
              table[..] == Select(old(table[..]), p, c) && idx == Selected(old(table[..]), p, c)
    {
      hide Matches, Scheduler.Slots;
      ghost var before := table[..];
      idx := 0;
      var i := 0;
      while i < table.Length && i < readings(i)
        invariant i <= table.Length && idx as int <= i
        invariant forall j :: 0 <= j < table.Length ==> table[j] == Select(before, i, c)[j]
        invariant idx == Selected(before, i, c)
        invariant Bound(readings, table.Length, 0) == Bound(readings, table.Length, i)
      {
        if Matches(table[i].rule, c) {
          if table[i].state == Ready {
            table[i] := table[i].(state := Waiting);
            idx := idx + 1;
          }
        } else if table[i].state == Executed && table[i].rule.period == WEEKLY {
          table[i] := table[i].(state := Ready);
        }
        i := i + 1;
      }
      assert table[..] == Select(before, i, c);
    }

    method ProcessRules(erases: nat -> int)
      requires Valid()
      modifies table, rules.fs, rules.map_, motor, guard
      ensures Valid()
      ensures table[..] == Processed(old(table[..]))
      ensures rules.Model() ==
              Deletions(old(rules.Model()), old(table[..]), erases, |old(table[..])|, rules.repaired)
      ensures motor.toggles == old(motor.toggles) + Amounts(old(table[..]), |old(table[..])|)
      ensures guard.asked == old(guard.asked) + STEP_US * Amounts(old(table[..]), |old(table[..])|)
    {
      hide Scheduler.DeleteRule;
      ghost var before, sched := table[..], rules.Model();
      var i := 0;
      while i < table.Length
        invariant i <= table.Length && Valid()
        invariant forall j :: 0 <= j < table.Length ==> table[j] == if j < i then ProcessEntry(before[j]) else before[j]
        invariant rules.Model() == Deletions(sched, before, erases, i, rules.repaired)
        invariant motor.toggles == old(motor.toggles) + Amounts(before, i)
        invariant guard.asked == old(guard.asked) + STEP_US * Amounts(before, i)
      {
        assert table[i] == before[i];
        if table[i].state == Waiting {
          motor.MoveFor(table[i].rule.amount);
          table[i] := table[i].(state := Executed);
          if table[i].rule.period == SPECIF {
            var _ := rules.DeleteRule(table[i].fsIndex, erases(i));
          }
        }
        i := i + 1;
      }
      assert table[..] == Processed(before);
    }

    /** One turn of the loop in `app`. */
    method Turn(x: Input)
      requires Valid()
      modifies this, table, rules.fs, rules.map_, motor, guard
      ensures Valid()
      ensures Model() == Tick(old(Model()), x, rules.repaired)
    {
      hide Scheduler.ReadRules, Deletions, Amounts, Select, Selected, Processed, Matches;
      match phase {
        case INIT =>
          shouldUpdateRules := false;
          phase := LOAD_RULES;
        case LOAD_RULES =>
          isRulesAvailable := false;
          var _ := GetRules(x.faults);
          phase := CHECK_RULES;
        case CHECK_RULES =>
          if !isRulesAvailable {
            phase := IDLE;
          } else {
            var selected := SelectRulesToExecute(x.readings, x.Clock());
            phase := if selected != 0 then PROCESS else IDLE;
          }
        case PROCESS =>
          ProcessRules(x.erases);
          phase := IDLE;
        case IDLE =>
          if shouldUpdateRules {
            phase := LOAD_RULES;
            shouldUpdateRules := false;
          } else {
            phase := CHECK_RULES;
          }
          guard.Feed();
          guard.Sleep(1000 * APPLICATION_THREAD_PERIOD);
      }
    }
  }
}
