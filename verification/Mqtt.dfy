/** `MQTT` and `LvlSensor`: the session thread, its event and topic handlers, proved against `SessionMachine`. */
module Mqtt {
  import opened Types
  import opened EventQueue
  import opened SessionMachine
  import RuleClock
  import RuleCodec
  import Storage
  import Scheduler
  import SchedulerRules
  import StoreEffects

  datatype Option<+T> = None | Some(value: T)

  /** What a payload on the add topic, once parsed, does to the store. */
  function AddTopic(s: Scheduler.Sched, parsed: Option<Rule>, pad: RuleCodec.Padding, zms: nat -> Storage.ZmsWrite):
    (int, Scheduler.Sched)
  {
    if parsed.Some? && RuleClock.ValidPayload(parsed.value)
    then Scheduler.WriteRule(s, RuleCodec.Encode(parsed.value, pad), zms)
    else (0, s)
  }

  /** What a number on the remove topic does to the store. */
  function RemoveTopic(s: Scheduler.Sched, ruleId: byte, erases: nat -> int, repaired: bool): (int, Scheduler.Sched) {
    if ruleId == 255 then Scheduler.ClearRules(s, erases)
    else if ruleId >= |s.bits| then (0, s)
    else Scheduler.DeleteRule(s, ruleId, erases(ruleId), repaired)
  }

  class LvlSensor {
    var isMqttConnected: bool

    constructor ()
      ensures !isMqttConnected
    {
      isMqttConnected := false;
    }

    method Update(e: Event)
      modifies this
      ensures isMqttConnected == SensorUpdate(old(isMqttConnected), e)
    {
      match e
      case MQTT_CONNECTED => isMqttConnected := true;
      case MQTT_DISCONNECTED => isMqttConnected := false;
      case _ =>
    }
  }

  class MQTT {
    const queue: EventQueue
    const rules: SchedulerRules.SchedulerRules
    const sensor: LvlSensor
    var state: MqttState
    var isMqttConnected: bool
    var isWifiConnected: bool
    ghost var trace: seq<Act>

    constructor (queue: EventQueue, rules: SchedulerRules.SchedulerRules, sensor: LvlSensor)
      ensures this.queue == queue && this.rules == rules && this.sensor == sensor
      ensures state == INIT && !isMqttConnected && !isWifiConnected && trace == []
    {
      this.queue, this.rules, this.sensor := queue, rules, sensor;
      state, isMqttConnected, isWifiConnected, trace := INIT, false, false, [];
    }

    ghost function Model(): Session
      reads this, queue, sensor
    {
      Session(state, isMqttConnected, isWifiConnected, sensor.isMqttConnected, queue.q, trace)
    }

    method BlockMqtt()
      modifies this`isWifiConnected
      ensures !isWifiConnected
    {
      isWifiConnected := false;
    }

    method ReleaseMqtt()
      modifies this`isWifiConnected
      ensures isWifiConnected
    {
      isWifiConnected := true;
    }

    method NotifyEvt(e: Event)
      modifies queue
      ensures queue.q == old(queue.q).Put(Msg(e, MQTT_EVT))
    {
      queue.Put(Msg(e, MQTT_EVT));
    }

    /** One handler event, or one step of another thread while a library call is in progress. */
    method Happens(h: Happening)
      modifies this, queue, sensor
      ensures Model() == Handle(old(Model()), h)
    {
      match h
      case Connack(result) =>
        if result == 0 {
          NotifyEvt(MQTT_CONNECTED);
          isMqttConnected := true;
          trace := trace + [Acked];
        }
      case Disconnect =>
        NotifyEvt(MQTT_DISCONNECTED);
        isMqttConnected := false;
        trace := trace + [Dropped];
      case Publish(notice) =>
        if notice.UpdateData? {
          NotifyEvt(MQTT_UPDATE_DATA);
        } else if notice.FeedNow? {
          NotifyEvt(MQTT_FEED_NOW);
        }
      case OtherPacket =>
      case Dispatches =>
        if queue.q.msgs != [] {
          var m := queue.Get();
          if Reaches(SENSOR_MASK, m.group) {
            sensor.Update(m.evt);
          }
        }
      case Foreign(m) =>
        if IsForeign(m) {
          queue.Put(m);
        }
      case Gate(open) => isWifiConnected := open;
    }

    method LibraryCall(hs: seq<Happening>)
      modifies this, queue, sensor
      ensures Model() == HandleAll(old(Model()), hs)
    {
      hide Handle;
      var i := 0;
      assert hs[..0] == [];
      while i < |hs|
        invariant i <= |hs|
        invariant Model() == HandleAll(old(Model()), hs[..i])
      {
        Happens(hs[i]);
        assert hs[..i + 1][..i] == hs[..i];
        i := i + 1;
      }
      assert hs[..|hs|] == hs;
    }

    method Connect(lib: Lib) returns (ok: bool)
      modifies this, queue, sensor
      ensures (ok, Model()) == SessionMachine.Connect(old(Model()), lib)
    {
      hide HandleAll;
      isMqttConnected := false;
      trace := trace + [Connects];
      LibraryCall(lib.connecting);
      if lib.connectRet != 0 {
        return false;
      }
      if lib.connackPoll > 0 {
        LibraryCall(lib.connackInput);
      }
      ok := true;
    }

    method ReadPayload(lib: Lib) returns (ret: int)
      modifies this, queue, sensor
      ensures (ret, Model()) == SessionMachine.ReadPayload(old(Model()), lib)
    {
      hide HandleAll;
      if lib.poll != 0 {
        if lib.pollIn {
          LibraryCall(lib.input);
          if lib.inputRet != 0 {
            return lib.inputRet;
          }
          if lib.pollError {
            return -ENOTCONN;
          }
        }
      } else {
        LibraryCall(lib.live);
        if lib.liveRet != 0 {
          return lib.liveRet;
        }
      }
      ret := 0;
    }

    method PublishPayload(lib: Lib)
      modifies this, queue, sensor
      ensures Model() == SessionMachine.PublishPayload(old(Model()), lib)
    {
      hide HandleAll;
      if lib.hasData {
        trace := trace + [Publishes];
        LibraryCall(lib.publishing);
      }
    }

    /** One turn of the loop in `mqtt_task`. */
    method TaskTurn(lib: Lib)
      modifies this, queue, sensor
      ensures Model() == Turn(old(Model()), lib)
    {
      hide HandleAll, SessionMachine.Connect, SessionMachine.ReadPayload, SessionMachine.PublishPayload;
      match state
      case INIT => state := CLIENT_READY;
      case CLIENT_READY =>
        if lib.brokerSet {
          state := BROKER_READY;
        }
      case BROKER_READY =>
        var ok := Connect(lib);
        if ok {
          state := CONNECTING;
        }
      case CONNECTING =>
        if isMqttConnected {
          LibraryCall(lib.subscribing);
          if lib.subscribeRet >= 0 {
            state := RUNNING;
            trace := trace + [Subscribed, EntersRunning];
          } else {
            state := ERROR;
          }
        }
      case RUNNING =>
        if isMqttConnected {
          var ret := ReadPayload(lib);
          if ret == -ENOTCONN {
            state := ERROR;
            trace := trace + [LeavesRunning];
          } else {
            PublishPayload(lib);
          }
        } else {
          state := ERROR;
          trace := trace + [LeavesRunning];
        }
      case ERROR =>
        if isWifiConnected {
          state := CLIENT_READY;
        }
    }

    /** `on_mqtt_add_rule_topic`: only a parsed and valid rule is stored, and only a stored rule is announced. */
    method OnMqttAddRuleTopic(parsed: Option<Rule>, pad: RuleCodec.Padding, zms: nat -> Storage.ZmsWrite)
      returns (ret: int)
      requires rules.Valid()
      modifies rules.fs, rules.map_, queue
      ensures rules.Valid()
      ensures (ret, rules.Model()) ==
              AddTopic(old(rules.Model()), parsed, pad, zms)
      ensures queue.q == if ret > 0 then old(queue.q).Put(Msg(MQTT_UPDATE_DATA, MQTT_EVT)) else old(queue.q)
    {
      hide RuleCodec.Encode, Scheduler.WriteRule;
      ret := 0;
      if parsed.Some? {
        if RuleClock.ValidPayload(parsed.value) {
          ret := rules.WriteRule(RuleCodec.Encode(parsed.value, pad), zms);
          if ret > 0 {
            NotifyEvt(MQTT_UPDATE_DATA);
          }
        }
      }
    }

    /**
     `on_mqtt_remove_rule_topic`: 255 clears all slots, an identifier out of range does nothing. A removal is announced
     only for a positive result, which no deletion returns as long as the storage reports success by 0.
     */
    method OnMqttRemoveRuleTopic(ruleId: byte, erases: nat -> int) returns (ret: int)
      requires rules.Valid()
      modifies rules.fs, rules.map_, queue
      ensures rules.Valid()
      ensures (ret, rules.Model()) ==
              RemoveTopic(old(rules.Model()), ruleId, erases, rules.repaired)
      ensures queue.q == if ret > 0 then old(queue.q).Put(Msg(MQTT_UPDATE_DATA, MQTT_EVT)) else old(queue.q)
      ensures (forall i :: erases(i) <= 0) ==> queue.q == old(queue.q)
    {
      if ruleId == 255 {
        ret := rules.ClearRules(erases);
      } else if ruleId >= rules.map_.Length {
        return 0;
      } else {
        ret := rules.DeleteRule(ruleId, erases(ruleId));
      }
      if ret > 0 {
        NotifyEvt(MQTT_UPDATE_DATA);
      }
    }
  }

  /** A removal is announced only for a positive storage answer; success, which is 0, never announces it. */
  lemma RemovalAnnouncedIff(s: Scheduler.Sched, slot: nat, zms: int, repaired: bool)
    requires slot < |s.bits|
    ensures Scheduler.DeleteRule(s, slot, zms, repaired).0 > 0 <==>
            s.bits[slot] && Storage.RULES_ID_BASE + slot <= Storage.RULES_ID_END && zms > 0
    ensures Scheduler.DeleteRule(s, slot, zms, repaired).0 > 0 ==> Scheduler.DeleteRule(s, slot, zms, repaired).1 == s
  {
  }

  /** A clear is announced exactly if an erasure, after successful ones only, gets a positive storage answer. */
  lemma ClearAnnouncedIff(s: Scheduler.Sched, zms: nat -> int)
    ensures Scheduler.ClearRules(s, zms).0 > 0 <==>
            exists k: nat :: k < |s.bits| && zms(k) > 0 && forall j: nat :: j < k ==> zms(j) == 0
    ensures (forall j: nat :: j < |s.bits| ==> zms(j) == 0) ==> Scheduler.ClearRules(s, zms).0 == 0
  {
    var m := Scheduler.FirstRefused(|s.bits|, zms, 0);
    if k: nat :| k < |s.bits| && zms(k) > 0 && forall j: nat :: j < k ==> zms(j) == 0 {
      assert m == k;
    }
  }

  /** Every stored rule can match some reading, and is the image of a rule with its fields in range. */
  ghost predicate HoldsAccepted(s: Scheduler.Sched) {
    forall id {:trigger s.cells[id]} :: id in s.cells && 2 <= id < 2 + |s.bits| ==> IsAcceptedImage(s.cells[id])
  }

  ghost predicate IsAcceptedImage(data: seq<byte>) {
    exists r: Rule, pad: RuleCodec.Padding {:trigger RuleCodec.Encode(r, pad)} ::
      data == RuleCodec.Encode(r, pad) && CanMatch(r)
  }

  ghost predicate CanMatch(r: Rule) {
    exists now: nat, date: RuleClock.Date :: RuleClock.Matches(r, RuleClock.At(now, date))
  }

  /** However often the two topics are used, only rules that can match are stored. */
  lemma TopicsKeepAccepted(s: Scheduler.Sched, parsed: Option<Rule>, pad: RuleCodec.Padding,
                           zms: nat -> Storage.ZmsWrite, ruleId: byte, erases: nat -> int, repaired: bool)
    requires HoldsAccepted(s)
    ensures HoldsAccepted(AddTopic(s, parsed, pad, zms).1)
    ensures HoldsAccepted(RemoveTopic(s, ruleId, erases, repaired).1)
  {
    hide RuleCodec.Encode, CanMatch;
    if parsed.Some? && RuleClock.ValidPayload(parsed.value) {
      assert CanMatch(parsed.value) by { AcceptedCanMatch(parsed.value); }
      assert IsAcceptedImage(RuleCodec.Encode(parsed.value, pad));
    }
  }

  lemma AcceptedCanMatch(r: Rule)
    requires RuleClock.ValidPayload(r)
    ensures CanMatch(r)
  {
    hide RuleClock.Matches, RuleClock.ValidPayload;
    RuleClock.AcceptedIff(r);
  }

  /** An accepted rule is stored, and announced, exactly if some free slot has room for it and ZMS takes it. */
  lemma AddsIff(s: Scheduler.Sched, r: Rule, pad: RuleCodec.Padding, zms: nat -> Storage.ZmsWrite)
    ensures AddTopic(s, Some(r), pad, zms).0 > 0 <==>
            RuleClock.ValidPayload(r) && exists k: nat :: StoreEffects.Takes(s, RuleCodec.RULE_SIZE, zms, k)
    ensures AddTopic(s, None, pad, zms) == (0, s)
  {
    hide RuleClock.ValidPayload;
    if RuleClock.ValidPayload(r) {
      if k: nat :| StoreEffects.Takes(s, RuleCodec.RULE_SIZE, zms, k) {
        var first := FirstTaker(s, RuleCodec.RULE_SIZE, zms, k);
        StoreEffects.WriteStoresAtFirstFit(s, RuleCodec.Encode(r, pad), zms, first);
      } else {
        StoreEffects.WriteWithoutFitDoesNothing(s, RuleCodec.Encode(r, pad), zms);
      }
    }
  }

  lemma {:induction false} FirstTaker(s: Scheduler.Sched, size: nat, zms: nat -> Storage.ZmsWrite, k: nat)
    returns (first: nat)
    requires StoreEffects.Takes(s, size, zms, k)
    ensures StoreEffects.Takes(s, size, zms, first)
    ensures forall j: nat :: j < first ==> !StoreEffects.Takes(s, size, zms, j)
  {
    if j: nat :| j < k && StoreEffects.Takes(s, size, zms, j) {
      first := FirstTaker(s, size, zms, j);
    } else {
      first := k;
    }
  }

  /** The number 255, with working erasures, leaves no rule; a number past the last slot changes nothing. */
  lemma RemovesWhat(s: Scheduler.Sched, ruleId: byte, erases: nat -> int, repaired: bool)
    ensures ruleId == 255 && (forall i: nat :: i < |s.bits| ==> erases(i) == 0) ==>
              Scheduler.Count(RemoveTopic(s, ruleId, erases, repaired).1.bits) == 0
    ensures ruleId != 255 && ruleId >= |s.bits| ==> RemoveTopic(s, ruleId, erases, repaired) == (0, s)
    ensures ruleId != 255 && ruleId < |s.bits| ==>
              forall k :: 0 <= k < |s.bits| && k != ruleId as int ==>
                RemoveTopic(s, ruleId, erases, repaired).1.bits[k] == s.bits[k]
  {
    StoreEffects.ClearResult(s, erases);
  }
}
