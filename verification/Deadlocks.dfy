/** Where the connection manager waits for something that can no longer come. */
module Deadlocks {
  import opened Types
  import opened Credentials
  import opened NetMachine
  import opened NetProofs
  import opened Wakeups

  // ---- what strands a wait ----

  lemma PutOrFull(q: Queue, m: Msg)
    ensures |q.msgs| < QUEUE_DEPTH ==> forall x :: x in q.Put(m).msgs <==> x in q.msgs || x == m
    ensures |q.msgs| >= QUEUE_DEPTH ==> q.Put(m).msgs == q.msgs
  {
    if |q.msgs| < QUEUE_DEPTH {
      assert q.Put(m).msgs[|q.msgs|] == m;
    }
  }

  /** A connect result that comes late ends the wait for an address exactly if nothing else is queued for it. */
  lemma LateConnectResultStrandsIff(n: Net)
    requires n.state == WAITING_FOR_IP_ADDRESS
    ensures Wakes(OnCallback(n, ConnectResult(0))) <==>
            Queued(n, WIFI_IP_ACQUIRED) || Queued(n, TIMEOUT) || Queued(n, WIFI_DISCONNECTED)
  {
    PutOrFull(n.queue, Msg(WIFI_CONNECTED, WIFI_EVT));
  }

  /** Likewise for an address reported while still CONNECTING. */
  lemma EarlyAddressStrandsIff(n: Net)
    requires n.state == CONNECTING
    ensures Wakes(OnCallback(n, AddressAdded)) <==> Queued(n, WIFI_CONNECTED) || Queued(n, TIMEOUT)
  {
    PutOrFull(n.queue, Msg(WIFI_IP_ACQUIRED, WIFI_EVT));
  }

  /** The expiry of the timer wakes a wait exactly if the queue has room or something else will wake it. */
  lemma DroppedTimeoutStrandsIff(n: Net)
    requires Handshake(n.state) && n.timer
    ensures Wakes(OnCallback(n, TimerExpires)) <==> |n.queue.msgs| < QUEUE_DEPTH || Wakes(n.(timer := false))
  {
    PutOrFull(n.queue, Msg(TIMEOUT, WIFI_EVT));
  }

  // ---- deaf states stay ----

  /** The state machine is given the message and reacts to it. */
  predicate Hears(s: WifiState, m: Msg) {
    (m.group == WIFI_EVT || m.group == PROV_EVT) && !Ignored(s, m.evt)
  }

  /** No queued message will be reacted to. */
  ghost predicate Deaf(n: Net) {
    forall m :: m in n.queue.msgs ==> !Hears(n.state, m)
  }

  /** The callback queues an event the state reacts to. */
  predicate Brings(n: Net, c: Callback) {
    match c
    case ConnectResult(status) => status == 0 && !Ignored(n.state, WIFI_CONNECTED)
    case DisconnectResult => !Ignored(n.state, WIFI_DISCONNECTED)
    case AddressAdded => !Ignored(n.state, WIFI_IP_ACQUIRED)
    case TimerExpires => n.timer && !Ignored(n.state, TIMEOUT)
    case BleWrite(_, _) => n.bleUp && !Ignored(n.state, PROVISIONING_CREDS_RECEIVED)
    case MqttMessage(_) => false
  }

  lemma PutKeepsDeaf(n: Net, e: Event, g: Group)
    requires Deaf(n) && !Hears(n.state, Msg(e, g))
    ensures Deaf(Put(n, e, g)) && Put(n, e, g).state == n.state
  {
    hide Hears;
    PutOrFull(n.queue, Msg(e, g));
  }

  /** The timer cannot be armed, nor Bluetooth started, without leaving or entering a state. */
  ghost predicate StaysDeaf(n: Net, u: Net) {
    Deaf(u) && u.state == n.state && (u.timer ==> n.timer) && u.bleUp == n.bleUp
  }

  lemma CallbackStaysDeaf(n: Net, c: Callback)
    requires Deaf(n) && !Brings(n, c)
    ensures StaysDeaf(n, OnCallback(n, c))
  {
    hide Ignored, WriteHalf, Queue.Put;
    match c
    case ConnectResult(status) =>
      if status == 0 {
        PutKeepsDeaf(n.(timer := false), WIFI_CONNECTED, WIFI_EVT);
      }
    case DisconnectResult => PutKeepsDeaf(n, WIFI_DISCONNECTED, WIFI_EVT);
    case AddressAdded => PutKeepsDeaf(n.(timer := false), WIFI_IP_ACQUIRED, WIFI_EVT);
    case TimerExpires =>
      if n.timer {
        PutKeepsDeaf(n.(timer := false), TIMEOUT, WIFI_EVT);
      }
    case BleWrite(half, data) =>
      var (ble, pairs) := WriteHalf(n.ble, half, data);
      if n.bleUp && pairs != [] {
        PutKeepsDeaf(n.(ble := ble, provCreds := pairs[0], commits := n.commits + [pairs[0]]),
                     PROVISIONING_CREDS_RECEIVED, PROV_EVT);
      }
    case MqttMessage(evt) => PutKeepsDeaf(n, evt, MQTT_EVT);
  }

  lemma StepStaysDeaf(n: Net, l: Label, max: nat)
    requires Deaf(n) && (l.Call? ==> !Brings(n, l.c))
    ensures StaysDeaf(n, Step(n, l, max))
  {
    hide Enter, Transition, Retry, OnCallback, Brings;
    match l
    case Call(c) => CallbackStaysDeaf(n, c);
    case Dispatch(lib, during) =>
      if n.queue.msgs != [] {
        assert n.queue.msgs[0] in n.queue.msgs;
      }
  }

  /** As long as no callback brings anything the state reacts to, a deaf state is never left. */
  lemma {:induction false} DeafForGood(tr: Trace, run: Run, max: nat, boot: Lib, k: nat, m: nat)
    requires Behavior(tr, run, max, boot) && k <= m && Deaf(tr(k))
    requires forall j: nat {:trigger run(j)} ::
               k <= j < m && run(j).Call? && StaysDeaf(tr(k), tr(j)) ==> !Brings(tr(j), run(j).c)
    ensures StaysDeaf(tr(k), tr(m))
    decreases m - k
  {
    hide Step, Process, Brings, Deaf;
    if k < m {
      DeafForGood(tr, run, max, boot, k, m - 1);
      StepStaysDeaf(tr(m - 1), run(m - 1), max);
    }
  }

  /** The driver reports nothing that ends a wait. */
  predicate DriverSilent(l: Label) {
    l.Call? ==> !l.c.DisconnectResult? && !l.c.AddressAdded? && (l.c.ConnectResult? ==> l.c.status != 0)
  }

  lemma StrandedIsDeaf(n: Net)
    requires Honest(n) && Handshake(n.state) && !Wakes(n)
    ensures Deaf(n) && !n.timer
  {
    forall m | m in n.queue.msgs ensures !Hears(n.state, m) {
      assert Fits(m, n.hasIface, n.commits != []);
      assert m.group == WIFI_EVT ==> m == Msg(m.evt, WIFI_EVT);
    }
  }

  /** A stranded wait is never left, in any run, unless the driver itself reports a change. */
  lemma StrandedForGood(tr: Trace, run: Run, max: nat, boot: Lib, k: nat, m: nat)
    requires Behavior(tr, run, max, boot) && k <= m && Handshake(tr(k).state) && !Wakes(tr(k))
    requires forall j: nat {:trigger run(j)} :: k <= j < m ==> DriverSilent(run(j))
    ensures tr(m).state == tr(k).state && !tr(m).timer
  {
    hide Step, Process, Wakes, Honest, Deaf;
    HonestAlways(tr, run, max, boot, k);
    StrandedIsDeaf(tr(k));
    DeafForGood(tr, run, max, boot, k, m);
  }

  // ---- waits without a timer ----

  /** In PROVISIONING without Bluetooth nothing can be reacted to, and nothing ever changes that. */
  lemma NoBluetoothIsFinal(tr: Trace, run: Run, max: nat, boot: Lib, k: nat, m: nat)
    requires Behavior(tr, run, max, boot) && k <= m && tr(k).state == PROVISIONING && !tr(k).bleUp
    ensures tr(m).state == PROVISIONING && !tr(m).bleUp
  {
    hide Step, Process, Honest, Deaf;
    HonestAlways(tr, run, max, boot, k);
    SilentBluetoothIsDeaf(tr(k));
    DeafForGood(tr, run, max, boot, k, m);
  }

  lemma SilentBluetoothIsDeaf(n: Net)
    requires Honest(n) && n.state == PROVISIONING && !n.bleUp
    ensures Deaf(n)
  {
    forall m | m in n.queue.msgs ensures !Hears(n.state, m) {
      assert Fits(m, n.hasIface, n.commits != []);
    }
  }

  // ---- provisioning only once ----

  /** Zephyr's `bt_enable` answers with an error while Bluetooth is up. */
  predicate RefusesSecondEnable(n: Net, l: Label) {
    l.Dispatch? && n.bleUp ==> l.lib.bleRet != 0
  }

  /** Bluetooth, once up, stays up; provisioning is enabled only by bringing it up. */
  ghost predicate EnablesOnlyByBle(n: Net, u: Net) {
    (n.bleUp ==> u.bleUp) && (u.provOn && !n.provOn ==> !n.bleUp && u.bleUp)
  }

  lemma CallbackKeepsBle(n: Net, c: Callback)
    ensures OnCallback(n, c).bleUp == n.bleUp && OnCallback(n, c).provOn == n.provOn
  {
    hide WriteHalf, Queue.Put;
  }

  lemma {:induction false} CallbacksKeepBle(n: Net, cs: seq<Callback>)
    ensures OnCallbacks(n, cs).bleUp == n.bleUp && OnCallbacks(n, cs).provOn == n.provOn
  {
    hide OnCallback;
    if cs != [] {
      CallbacksKeepBle(n, cs[..|cs| - 1]);
      CallbackKeepsBle(OnCallbacks(n, cs[..|cs| - 1]), cs[|cs| - 1]);
    }
  }

  lemma EnterEnables(n: Net, lib: Lib, during: seq<Callback>)
    requires n.bleUp ==> lib.bleRet != 0
    ensures EnablesOnlyByBle(n, Enter(n, lib, during))
  {
    hide OnCallbacks, Queue.Put, StartProvisioning;
    CallbacksKeepBle(n, during);
    if n.state == PROVISIONING {
      StartEnables(n, lib);
    }
  }

  lemma StartEnables(n: Net, lib: Lib)
    requires n.bleUp ==> lib.bleRet != 0
    ensures EnablesOnlyByBle(n, StartProvisioning(n, lib))
  {
  }

  lemma TransitionEnables(n: Net, s: WifiState, lib: Lib, during: seq<Callback>)
    requires n.bleUp ==> lib.bleRet != 0
    ensures EnablesOnlyByBle(n, Transition(n, s, lib, during))
  {
    hide Enter, Handshake;
    var left := n.(tries := if Handshake(n.state) && s != n.state then 0 else n.tries,
                   gate := n.gate && n.state != CONNECTED, state := s);
    EnterEnables(left, lib, during);
  }

  lemma StepEnables(n: Net, l: Label, max: nat)
    requires RefusesSecondEnable(n, l)
    ensures EnablesOnlyByBle(n, Step(n, l, max))
  {
    hide Enter, Transition, OnCallback, Target, Restarts;
    match l
    case Call(c) => CallbackKeepsBle(n, c);
    case Dispatch(lib, during) =>
      if n.queue.msgs != [] {
        var p := n.(queue := n.queue.(msgs := n.queue.msgs[1..]));
        var e, retried := n.queue.msgs[0].evt, p.(tries := (p.tries + 1) % 0x100);
        EnterEnables(p, lib, during);
        EnterEnables(retried, lib, during);
        TransitionEnables(retried, PROVISIONING, lib, during);
        TransitionEnables(p, Target(n.state, e), lib, during);
        TransitionEnables(p.(timer := false), Target(n.state, e), lib, during);
      }
  }

  lemma {:induction false} BleStaysUp(tr: Trace, run: Run, max: nat, boot: Lib, k: nat, m: nat)
    requires Behavior(tr, run, max, boot) && k <= m && tr(k).bleUp
    requires forall j: nat {:trigger run(j)} :: RefusesSecondEnable(tr(j), run(j))
    ensures tr(m).bleUp && (!tr(k).provOn ==> !tr(m).provOn)
    decreases m - k
  {
    hide Step, Process, RefusesSecondEnable;
    if k < m {
      BleStaysUp(tr, run, max, boot, k, m - 1);
      StepEnables(tr(m - 1), run(m - 1), max);
    }
  }

  /** In every run provisioning is enabled at most once, however often PROVISIONING is entered. */
  lemma ProvisioningEnabledOnce(tr: Trace, run: Run, max: nat, boot: Lib, j: nat, k: nat)
    requires Behavior(tr, run, max, boot)
    requires forall i: nat {:trigger run(i)} :: RefusesSecondEnable(tr(i), run(i))
    requires j <= k && !tr(j).provOn && tr(j + 1).provOn && !tr(k).provOn && tr(k + 1).provOn
    ensures j == k
  {
    hide Step, Process, RefusesSecondEnable;
    StepEnables(tr(j), run(j), max);
    StepEnables(tr(k), run(k), max);
    if j < k {
      BleStaysUp(tr, run, max, boot, j + 1, k);
    }
  }

  // ---- hanging at power-up ----

  /** The state machine never leaves INITIALIZING in a run from power-up. */
  ghost predicate AlwaysHangs(max: nat, boot: Lib) {
    forall tr: Trace, run: Run, k: nat {:trigger Behavior(tr, run, max, boot), tr(k)} ::
      Behavior(tr, run, max, boot) ==> tr(k).state == INITIALIZING
  }

  ghost function State(run: Run, max: nat, boot: Lib, k: nat): Net {
    if k == 0 then Process(PowerUp(), START, max, boot, []) else Step(State(run, max, boot, k - 1), run(k - 1), max)
  }

  /** The device hangs at power-up exactly if its interface exists but does not come up. */
  lemma HangsIff(max: nat, boot: Lib)
    ensures AlwaysHangs(max, boot) <==> boot.hasIface && !boot.ifUp
  {
    if boot.hasIface && !boot.ifUp {
      forall tr: Trace, run: Run, k: nat | Behavior(tr, run, max, boot) ensures tr(k).state == INITIALIZING {
        SilentBootIsDeaf(max, boot);
        hide Step, Process, Deaf;
        DeafForGood(tr, run, max, boot, 0, k);
      }
    } else {
      var tr, run := DispatchOnly(max, boot);
      hide Step, Process;
      FirstDispatchLeaves(max, boot, run(0));
      assert tr(0 + 1).state != INITIALIZING;
    }
  }

  lemma DispatchOnly(max: nat, boot: Lib) returns (tr: Trace, run: Run)
    ensures Behavior(tr, run, max, boot) && run(0).Dispatch?
  {
    hide Step, Process;
    run := (k: nat) => Dispatch(boot, []);
    tr := (k: nat) => State(run, max, boot, k);
  }

  lemma SilentBootIsDeaf(max: nat, boot: Lib)
    requires boot.hasIface && !boot.ifUp
    ensures var n := Process(PowerUp(), START, max, boot, []); Deaf(n) && n.state == INITIALIZING
  {
  }

  lemma FirstDispatchLeaves(max: nat, boot: Lib, l: Label)
    requires !(boot.hasIface && !boot.ifUp) && l.Dispatch?
    ensures Step(Process(PowerUp(), START, max, boot, []), l, max).state != INITIALIZING
  {
    hide Enter;
    var n := Process(PowerUp(), START, max, boot, []);
    BootQueue(max, boot);
    ProcessMoves(n.(queue := n.queue.(msgs := n.queue.msgs[1..])), n.queue.msgs[0].evt, max, l.lib, l.during);
  }

  lemma BootQueue(max: nat, boot: Lib)
    requires !(boot.hasIface && !boot.ifUp)
    ensures var n := Process(PowerUp(), START, max, boot, []);
            && n.state == INITIALIZING
            && n.queue.msgs == [Msg(if boot.hasIface then WIFI_IFACE_UP else WIFI_IFACE_ERROR, WIFI_EVT)]
  {
  }
}
