/**
 The MQTT thread as a value, with the dispatcher and the level sensor that follow its events. Library calls may run
 the event handler any number of times, and other threads may run in between.
 */
module SessionMachine {
  import opened Types

  datatype MqttState = INIT | CLIENT_READY | BROKER_READY | CONNECTING | RUNNING | ERROR

  /** What a publish on a subscribed topic announces. */
  datatype Notice = Nothing | UpdateData | FeedNow

  /** What happens while a library call is in progress: handler events, and steps of other threads. */
  datatype Happening =
    | Connack(result: int)
    | Disconnect
    | Publish(notice: Notice)
    | OtherPacket
    | Dispatches          // the dispatcher takes one message
    | Foreign(msg: Msg)   // another component queues a message
    | Gate(open: bool)    // block_mqtt or release_mqtt

  /** The thread's history. */
  datatype Act = Connects | Acked | Dropped | Subscribed | EntersRunning | LeavesRunning | Publishes

  datatype Session = Session(
    state: MqttState, connected: bool, gate: bool, sensor: bool, queue: Queue, trace: seq<Act>)

  /** `Netmgnt::Notify`: a listener is called if its mask has a bit in common with the group. */
  predicate Reaches(mask: bv8, g: Group) { mask & g.Code() != 0 }

  const SENSOR_MASK: bv8 := 1  // net.Attach(&sensor, MQTT_EVT)

  /** `LvlSensor::Update`. */
  function SensorUpdate(flag: bool, e: Event): bool {
    if e == MQTT_CONNECTED then true else if e == MQTT_DISCONNECTED then false else flag
  }

  function Deliver(flag: bool, m: Msg): bool {
    if Reaches(SENSOR_MASK, m.group) then SensorUpdate(flag, m.evt) else flag
  }

  function Put(s: Session, e: Event): Session { s.(queue := s.queue.Put(Msg(e, MQTT_EVT))) }

  function Dispatched(s: Session): Session {
    if s.queue.msgs == [] then s
    else s.(sensor := Deliver(s.sensor, s.queue.msgs[0]), queue := s.queue.(msgs := s.queue.msgs[1..]))
  }

  /** Only the MQTT handler announces sessions. */
  predicate IsForeign(m: Msg) { m.evt != MQTT_CONNECTED && m.evt != MQTT_DISCONNECTED }

  /** `mqtt_evt_handler`, or a step of another thread. */
  function Handle(s: Session, h: Happening): Session {
    match h
    case Connack(result) =>
      if result != 0 then s else Put(s, MQTT_CONNECTED).(connected := true, trace := s.trace + [Acked])
    case Disconnect => Put(s, MQTT_DISCONNECTED).(connected := false, trace := s.trace + [Dropped])
    case Publish(notice) =>
      if notice.UpdateData? then Put(s, MQTT_UPDATE_DATA)
      else if notice.FeedNow? then Put(s, MQTT_FEED_NOW)
      else s
    case OtherPacket => s
    case Dispatches => Dispatched(s)
    case Foreign(m) => if IsForeign(m) then s.(queue := s.queue.Put(m)) else s
    case Gate(open) => s.(gate := open)
  }

  function HandleAll(s: Session, hs: seq<Happening>): Session {
    if hs == [] then s else Handle(HandleAll(s, hs[..|hs| - 1]), hs[|hs| - 1])
  }

  /** The answers of the libraries in one turn of the loop, and what happens during each call. */
  datatype Lib = Lib(
    brokerSet: bool,
    connectRet: int, connecting: seq<Happening>, connackPoll: int, connackInput: seq<Happening>,
    subscribeRet: int, subscribing: seq<Happening>,
    poll: int, pollIn: bool, pollError: bool, inputRet: int, input: seq<Happening>,
    liveRet: int, live: seq<Happening>,
    hasData: bool, publishing: seq<Happening>)

  const ENOTCONN: int := 128

  /** `connect`. */
  function Connect(s: Session, lib: Lib): (bool, Session) {
    var called := HandleAll(s.(connected := false, trace := s.trace + [Connects]), lib.connecting);
    if lib.connectRet != 0 then (false, called)
    else (true, if lib.connackPoll > 0 then HandleAll(called, lib.connackInput) else called)
  }

  /** `read_payload`. */
  function ReadPayload(s: Session, lib: Lib): (int, Session) {
    if lib.poll == 0 then (lib.liveRet, HandleAll(s, lib.live))
    else if !lib.pollIn then (0, s)
    else (if lib.inputRet != 0 then lib.inputRet else if lib.pollError then -ENOTCONN else 0, HandleAll(s, lib.input))
  }

  /** `mqtt_publish_payload`. */
  function PublishPayload(s: Session, lib: Lib): Session {
    if lib.hasData then HandleAll(s.(trace := s.trace + [Publishes]), lib.publishing) else s
  }

  /** One turn of the loop in `mqtt_task`. */
  function Turn(s: Session, lib: Lib): Session {
    match s.state
    case INIT => s.(state := CLIENT_READY)
    case CLIENT_READY => if lib.brokerSet then s.(state := BROKER_READY) else s
    case BROKER_READY =>
      var (ok, t) := Connect(s, lib);
      if ok then t.(state := CONNECTING) else t
    case CONNECTING =>
      if !s.connected then s
      else
        var t := HandleAll(s, lib.subscribing);
        if lib.subscribeRet >= 0 then t.(state := RUNNING, trace := t.trace + [Subscribed, EntersRunning])
        else t.(state := ERROR)
    case RUNNING =>
      if !s.connected then s.(state := ERROR, trace := s.trace + [LeavesRunning])
      else
        var (ret, t) := ReadPayload(s, lib);
        if ret == -ENOTCONN then t.(state := ERROR, trace := t.trace + [LeavesRunning])
        else PublishPayload(t, lib)
    case ERROR => if s.gate then s.(state := CLIENT_READY) else s
  }

  datatype Label = Runs(lib: Lib) | Meanwhile(h: Happening)

  /** Between turns only other threads act: the handler runs on the MQTT thread. */
  predicate OfOtherThreads(h: Happening) { h.Dispatches? || h.Foreign? || h.Gate? }

  function Step(s: Session, l: Label): Session {
    match l
    case Runs(lib) => Turn(s, lib)
    case Meanwhile(h) => if OfOtherThreads(h) then Handle(s, h) else s
  }

  type Trace = nat -> Session
  type Run = nat -> Label

  predicate Fresh(s: Session) {
    s.state == INIT && !s.connected && !s.sensor && s.queue == Queue([], false) && s.trace == []
  }

  /** One run of the thread, from its creation. */
  ghost predicate Behavior(tr: Trace, run: Run) {
    Fresh(tr(0)) && forall k: nat {:trigger run(k)} :: tr(k + 1) == Step(tr(k), run(k))
  }

  /** What every happening keeps: the state, and all of the history so far. */
  lemma HandleKeepsState(s: Session, h: Happening)
    ensures Handle(s, h).state == s.state && s.trace <= Handle(s, h).trace
    ensures !(h.Connack? || h.Disconnect?) ==> Handle(s, h).trace == s.trace && Handle(s, h).connected == s.connected
  {
    hide Deliver;
  }

  lemma {:induction false} HandleAllKeepsState(s: Session, hs: seq<Happening>)
    ensures HandleAll(s, hs).state == s.state && s.trace <= HandleAll(s, hs).trace
  {
    hide Handle;
    if hs != [] {
      HandleAllKeepsState(s, hs[..|hs| - 1]);
      HandleKeepsState(HandleAll(s, hs[..|hs| - 1]), hs[|hs| - 1]);
    }
  }
}
