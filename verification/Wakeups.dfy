/** No wait of the connection manager is left without something that will end it; and what gets stored. */
module Wakeups {
  import opened Types
  import opened Credentials
  import opened NetMachine
  import opened NetProofs

  // ---- what can be in the queue ----

  predicate FromProvisioning(e: Event) {
    || e == PROVISIONING_CREDS_RECEIVED
    || e == PROVISIONING_STORE_CREDENTIALS_OK
    || e == PROVISIONING_STORE_CREDENTIALS_ERROR
  }

  ghost predicate Fits(m: Msg, iface: bool, committed: bool) {
    && m.group != APP_EVT
    && (m.group == WIFI_EVT ==> m.evt != START && !FromProvisioning(m.evt))
    && (m.group == WIFI_EVT && m.evt == WIFI_IFACE_UP ==> iface)
    && (m.group == PROV_EVT ==> FromProvisioning(m.evt) && committed)
  }

  ghost predicate Sound(q: Queue, iface: bool, committed: bool) {
    forall m :: m in q.msgs ==> Fits(m, iface, committed)
  }

  lemma SoundPut(q: Queue, m: Msg, iface: bool, committed: bool)
    requires Sound(q, iface, committed) && Fits(m, iface, committed)
    ensures Sound(q.Put(m), iface, committed)
  {
  }

  lemma PutMembers(q: Queue, m: Msg)
    ensures m in q.Put(m).msgs || q.Put(m).dropped
    ensures forall x :: x in q.msgs ==> x in q.Put(m).msgs
    ensures q.dropped ==> q.Put(m).dropped
  {
    if |q.msgs| < QUEUE_DEPTH {
      assert q.Put(m).msgs[|q.msgs|] == m;
    }
  }

  lemma Popped(q: Queue, m: Msg)
    requires m in q.msgs
    ensures m == q.msgs[0] || m in q.msgs[1..]
  {
    var i :| 0 <= i < |q.msgs| && q.msgs[i] == m;
    if i > 0 {
      assert q.msgs[1..][i - 1] == m;
    }
  }

  /** Outside boot and error the interface exists, and Provisioning holds the pair committed last. */
  ghost predicate Honest(n: Net) {
    && Sound(n.queue, n.hasIface, n.commits != [])
    && (n.state != INITIALIZING && n.state != IFACE_ERROR ==> n.hasIface)
    && (n.state == STORING_CREDENTIALS ==> n.commits != [])
    && (n.commits != [] ==> n.provCreds == n.commits[|n.commits| - 1] && n.bleUp)
  }

  lemma PutKeepsHonest(n: Net, e: Event, g: Group)
    requires Honest(n) && Fits(Msg(e, g), n.hasIface, n.commits != [])
    ensures Honest(Put(n, e, g))
  {
    SoundPut(n.queue, Msg(e, g), n.hasIface, n.commits != []);
  }

  lemma TimerKeepsHonest(n: Net, timer: bool)
    requires Honest(n)
    ensures Honest(n.(timer := timer))
  {
  }

  lemma CallbackKeepsHonest(n: Net, c: Callback)
    requires Honest(n)
    ensures Honest(OnCallback(n, c))
  {
    hide OnBleWrite, Put, Honest;
    TimerKeepsHonest(n, false);
    match c
    case ConnectResult(_) => PutKeepsHonest(n.(timer := false), WIFI_CONNECTED, WIFI_EVT);
    case DisconnectResult => PutKeepsHonest(n, WIFI_DISCONNECTED, WIFI_EVT);
    case AddressAdded => PutKeepsHonest(n.(timer := false), WIFI_IP_ACQUIRED, WIFI_EVT);
    case TimerExpires => PutKeepsHonest(n.(timer := false), TIMEOUT, WIFI_EVT);
    case BleWrite(half, data) =>
      if n.bleUp {
        BleWriteKeepsHonest(n, half, data);
      }
    case MqttMessage(evt) => PutKeepsHonest(n, evt, MQTT_EVT);
  }

  /** A commit replaces the pair Provisioning holds. */
  lemma CommitKeepsHonest(n: Net, ble: Creds, pair: Creds)
    requires Honest(n) && n.bleUp
    ensures Honest(n.(ble := ble, provCreds := pair, commits := n.commits + [pair])) && Honest(n.(ble := ble))
  {
    assert forall m :: m in n.queue.msgs ==> Fits(m, n.hasIface, true);
  }

  lemma BleWriteKeepsHonest(n: Net, half: Half, data: seq<byte>)
    requires Honest(n) && n.bleUp
    ensures Honest(OnBleWrite(n, half, data))
  {
    hide WriteHalf, Honest, Put;
    var (ble, pairs) := WriteHalf(n.ble, half, data);
    CommitKeepsHonest(n, ble, if pairs == [] then ble else pairs[0]);
    if pairs != [] {
      PutKeepsHonest(n.(ble := ble, provCreds := pairs[0], commits := n.commits + [pairs[0]]),
                     PROVISIONING_CREDS_RECEIVED, PROV_EVT);
    }
  }

  lemma {:induction false} CallbacksKeepHonest(n: Net, cs: seq<Callback>)
    requires Honest(n)
    ensures Honest(OnCallbacks(n, cs))
  {
    hide OnCallback, Honest;
    if cs != [] {
      CallbacksKeepHonest(n, cs[..|cs| - 1]);
      CallbackKeepsHonest(OnCallbacks(n, cs[..|cs| - 1]), cs[|cs| - 1]);
    }
  }

  lemma FlagsKeepHonest(n: Net, gate: bool, provOn: bool)
    requires Honest(n)
    ensures Honest(n.(gate := gate, provOn := provOn)) && Honest(n.(bleUp := true, provOn := provOn))
  {
  }

  lemma ConnectKeepsHonest(n: Net, lib: Lib)
    requires Honest(n) && n.state == CONNECTING
    ensures Honest(ConnectToWifi(n, lib)) && ConnectToWifi(n, lib).timer
  {
    PutKeepsHonest(n, WIFI_IFACE_ERROR, WIFI_EVT);
  }

  lemma StoringKeepsHonest(n: Net, lib: Lib)
    requires Honest(n) && n.commits != []
    ensures Honest(StoreCredentials(n, lib))
  {
    hide Put;
    PutKeepsHonest(n, PROVISIONING_STORE_CREDENTIALS_ERROR, PROV_EVT);
    PutKeepsHonest(n.(stores := n.stores + [n.provCreds]), PROVISIONING_STORE_CREDENTIALS_OK, PROV_EVT);
  }

  lemma StoringHasCommit(n: Net)
    requires Honest(n) && n.state == STORING_CREDENTIALS
    ensures n.commits != []
  {
  }

  /** Entering any state but INITIALIZING keeps the queue honest; the wait states are entered with the timer armed. */
  lemma EnterKeepsHonest(n: Net, lib: Lib, during: seq<Callback>)
    requires Honest(n) && n.state != INITIALIZING
    ensures var m := Enter(n, lib, during);
            Honest(m) && (Handshake(n.state) ==> m.timer)
  {
    hide Honest, OnCallbacks, Put, ConnectToWifi, StoreCredentials;
    CallbacksKeepHonest(n, during);
    match n.state
    case LOADING_CREDENTIALS =>
      PutKeepsHonest(n, if lib.noCredentials then WIFI_CREDS_NOT_FOUND else WIFI_CREDS_OK, WIFI_EVT);
    case CONNECTING =>
      CallbacksKeepMachine(n, during);
      ConnectKeepsHonest(OnCallbacks(n, during), lib);
    case STORING_CREDENTIALS =>
      assert n.commits != [] by { StoringHasCommit(n); }
      StoringKeepsHonest(n, lib);
    case CONNECTED => FlagsKeepHonest(OnCallbacks(n, during), true, false);
    case WAITING_FOR_IP_ADDRESS => TimerKeepsHonest(OnCallbacks(n, during), true);
    case PROVISIONING => FlagsKeepHonest(n, n.gate, lib.settingsRet == 0 && lib.advRet == 0);
    case IFACE_ERROR =>
  }

  // ---- handled events ----

  lemma TransitionKeepsHonest(n: Net, s: WifiState, lib: Lib, during: seq<Callback>)
    requires Honest(n) && s != INITIALIZING
    requires s != IFACE_ERROR ==> n.hasIface
    requires s == STORING_CREDENTIALS ==> n.commits != []
    ensures Honest(Transition(n, s, lib, during)) && (Handshake(s) ==> Transition(n, s, lib, during).timer)
  {
    hide Enter;
    EnterKeepsHonest(n.(tries := if Handshake(n.state) && s != n.state then 0 else n.tries,
                        gate := n.gate && n.state != CONNECTED).(state := s), lib, during);
  }

  /** Where an event can lead from which state, as far as the interface and the commits are concerned. */
  lemma TargetNeeds(s: WifiState, e: Event)
    requires Target(s, e) != s
    ensures Target(s, e) != INITIALIZING
    ensures s == INITIALIZING && Target(s, e) != IFACE_ERROR ==> e == WIFI_IFACE_UP
    ensures s != INITIALIZING ==> s != IFACE_ERROR
    ensures Target(s, e) == STORING_CREDENTIALS ==> e == PROVISIONING_CREDS_RECEIVED
  {
  }

  /** The state does not react to the event. */
  predicate Ignored(s: WifiState, e: Event) {
    !(Handshake(s) && e == TIMEOUT) && !Restarts(s, e) && Target(s, e) == s
  }

  /** A handled event is ignored, or arms the timer of the wait state it enters. */
  lemma ProcessKeepsHonest(n: Net, m: Msg, max: nat, lib: Lib, during: seq<Callback>)
    requires Honest(n) && Fits(m, n.hasIface, n.commits != []) && m.group != MQTT_EVT
    ensures var u := Process(n, m.evt, max, lib, during);
            && Honest(u)
            && (if Ignored(n.state, m.evt) then u == n else Handshake(u.state) ==> u.timer)
  {
    hide Enter, Transition, Target;
    var e := m.evt;
    if Handshake(n.state) && e == TIMEOUT {
      TriesKeepHonest(n, (n.tries + 1) % 0x100);
      EnterKeepsHonest(n.(tries := (n.tries + 1) % 0x100), lib, during);
      EnterKeepsMachine(n.(tries := (n.tries + 1) % 0x100), lib, during);
      TransitionMachine(n.(tries := (n.tries + 1) % 0x100), PROVISIONING, lib, during);
      TransitionKeepsHonest(n.(tries := (n.tries + 1) % 0x100), PROVISIONING, lib, during);
    } else if Restarts(n.state, e) {
      EnterKeepsHonest(n, lib, during);
      EnterKeepsMachine(n, lib, during);
    } else if Target(n.state, e) != n.state {
      TargetNeeds(n.state, e);
      TimerKeepsHonest(n, false);
      TransitionKeepsHonest(n, Target(n.state, e), lib, during);
      TransitionKeepsHonest(n.(timer := false), Target(n.state, e), lib, during);
      TransitionMachine(n, Target(n.state, e), lib, during);
      TransitionMachine(n.(timer := false), Target(n.state, e), lib, during);
    }
  }

  lemma TriesKeepHonest(n: Net, t: byte)
    requires Honest(n)
    ensures Honest(n.(tries := t))
  {
  }

  lemma PopKeepsHonest(n: Net)
    requires Honest(n) && n.queue.msgs != []
    ensures Honest(n.(queue := n.queue.(msgs := n.queue.msgs[1..])))
    ensures Fits(n.queue.msgs[0], n.hasIface, n.commits != [])
  {
  }

  lemma StepKeepsHonest(n: Net, l: Label, max: nat)
    requires Honest(n)
    ensures Honest(Step(n, l, max))
  {
    hide Honest, Process, OnCallback, Fits;
    match l
    case Call(c) => CallbackKeepsHonest(n, c);
    case Dispatch(lib, during) =>
      if n.queue.msgs != [] {
        var m := n.queue.msgs[0];
        PopKeepsHonest(n);
        if m.group == WIFI_EVT || m.group == PROV_EVT {
          ProcessKeepsHonest(n.(queue := n.queue.(msgs := n.queue.msgs[1..])), m, max, lib, during);
        }
      }
  }

  lemma BootHonest(max: nat, boot: Lib)
    ensures Honest(Process(PowerUp(), START, max, boot, []))
  {
  }

  lemma {:induction false} HonestAlways(tr: Trace, run: Run, max: nat, boot: Lib, k: nat)
    requires Behavior(tr, run, max, boot)
    ensures Honest(tr(k))
  {
    hide Honest, Process, Step;
    if k == 0 {
      BootHonest(max, boot);
    } else {
      HonestAlways(tr, run, max, boot, k - 1);
      StepKeepsHonest(tr(k - 1), run(k - 1), max);
    }
  }

  // ---- no stuck wait ----

  predicate Queued(n: Net, e: Event) { Msg(e, WIFI_EVT) in n.queue.msgs }

  /** Something will end the current wait: the armed timer, or a queued event the state reacts to. */
  predicate Wakes(n: Net) {
    && (n.state == CONNECTING ==> n.timer || Queued(n, WIFI_CONNECTED) || Queued(n, TIMEOUT))
    && (n.state == WAITING_FOR_IP_ADDRESS ==>
          n.timer || Queued(n, WIFI_IP_ACQUIRED) || Queued(n, TIMEOUT) || Queued(n, WIFI_DISCONNECTED))
  }

  /** ... or a message has been lost. */
  predicate Awake(n: Net) { n.queue.dropped || Wakes(n) }

  /**
   The callback stops the timer of a wait it does not end, and nothing queued will end it either: a connect result while
   waiting for an address, or an address while CONNECTING.
   */
  predicate Strands(n: Net, l: Label) {
    && l.Call? && !n.queue.dropped && |n.queue.msgs| < QUEUE_DEPTH
    && match l.c
       case ConnectResult(status) =>
         && status == 0 && n.state == WAITING_FOR_IP_ADDRESS
         && !Queued(n, WIFI_IP_ACQUIRED) && !Queued(n, TIMEOUT) && !Queued(n, WIFI_DISCONNECTED)
       case AddressAdded => n.state == CONNECTING && !Queued(n, WIFI_CONNECTED) && !Queued(n, TIMEOUT)
       case _ => false
  }

  /** No successful connect result while waiting for an address, and no new address while CONNECTING. */
  predicate InPhase(n: Net, l: Label) {
    && (l.Call? && l.c.ConnectResult? && l.c.status == 0 ==> n.state != WAITING_FOR_IP_ADDRESS)
    && (l.Call? && l.c.AddressAdded? ==> n.state != CONNECTING)
  }

  lemma PutQueues(n: Net, e: Event, g: Group)
    ensures Msg(e, g) in Put(n, e, g).queue.msgs || Put(n, e, g).queue.dropped
    ensures forall x :: Queued(n, x) ==> Queued(Put(n, e, g), x)
    ensures n.queue.dropped || |n.queue.msgs| >= QUEUE_DEPTH ==> Put(n, e, g).queue.dropped
  {
    PutMembers(n.queue, Msg(e, g));
  }

  lemma PutKeepsAwake(n: Net, e: Event, g: Group)
    requires Awake(n)
    ensures Awake(Put(n, e, g))
  {
    hide Queue.Put;
    PutQueues(n, e, g);
  }

  lemma CallbackKeepsAwake(n: Net, c: Callback)
    requires Awake(n) && !Strands(n, Call(c))
    ensures Awake(OnCallback(n, c))
  {
    hide Put, WriteHalf;
    match c
    case ConnectResult(_) =>
      PutQueues(n.(timer := false), WIFI_CONNECTED, WIFI_EVT);
      SamePhase(n.(timer := false), WIFI_CONNECTED, WIFI_EVT);
    case DisconnectResult => PutKeepsAwake(n, WIFI_DISCONNECTED, WIFI_EVT);
    case AddressAdded =>
      PutQueues(n.(timer := false), WIFI_IP_ACQUIRED, WIFI_EVT);
      SamePhase(n.(timer := false), WIFI_IP_ACQUIRED, WIFI_EVT);
    case TimerExpires =>
      PutQueues(n.(timer := false), TIMEOUT, WIFI_EVT);
      SamePhase(n.(timer := false), TIMEOUT, WIFI_EVT);
    case BleWrite(half, data) =>
      var (ble, pairs) := WriteHalf(n.ble, half, data);
      if pairs != [] {
        PutKeepsAwake(n.(ble := ble, provCreds := pairs[0], commits := n.commits + [pairs[0]]),
                      PROVISIONING_CREDS_RECEIVED, PROV_EVT);
      }
    case MqttMessage(evt) => PutKeepsAwake(n, evt, MQTT_EVT);
  }

  lemma StrandingIsNotAwake(n: Net, c: Callback)
    requires Strands(n, Call(c))
    ensures !Awake(OnCallback(n, c))
  {
    var e := if c.AddressAdded? then WIFI_IP_ACQUIRED else WIFI_CONNECTED;
    var q := n.queue.Put(Msg(e, WIFI_EVT));
    assert forall m :: m in q.msgs ==> m in n.queue.msgs || m == Msg(e, WIFI_EVT);
  }

  lemma SamePhase(n: Net, e: Event, g: Group)
    ensures Put(n, e, g).state == n.state && Put(n, e, g).timer == n.timer
  {
  }

  /** The events a wait is for are never ignored. */
  lemma WaitedForIsNotIgnored(s: WifiState, e: Event)
    requires Ignored(s, e)
    ensures s == CONNECTING ==> e != WIFI_CONNECTED && e != TIMEOUT
    ensures s == WAITING_FOR_IP_ADDRESS ==> e != WIFI_IP_ACQUIRED && e != TIMEOUT && e != WIFI_DISCONNECTED
  {
  }

  /** Taking a message the state ignores leaves it awake. */
  lemma PopKeepsAwake(n: Net)
    requires Awake(n) && n.queue.msgs != []
    requires n.queue.msgs[0].group == WIFI_EVT ==> Ignored(n.state, n.queue.msgs[0].evt)
    ensures Awake(n.(queue := n.queue.(msgs := n.queue.msgs[1..])))
  {
    hide Ignored;
    var p := n.(queue := n.queue.(msgs := n.queue.msgs[1..]));
    if n.queue.msgs[0].group == WIFI_EVT {
      WaitedForIsNotIgnored(n.state, n.queue.msgs[0].evt);
    }
    forall e | Queued(n, e) ensures Queued(p, e) || n.queue.msgs[0] == Msg(e, WIFI_EVT) {
      Popped(n.queue, Msg(e, WIFI_EVT));
    }
    assert Queued(n, WIFI_CONNECTED) ==> Queued(p, WIFI_CONNECTED) || n.queue.msgs[0].evt == WIFI_CONNECTED;
    assert Queued(n, TIMEOUT) ==> Queued(p, TIMEOUT) || n.queue.msgs[0].evt == TIMEOUT;
    assert Queued(n, WIFI_IP_ACQUIRED) ==> Queued(p, WIFI_IP_ACQUIRED) || n.queue.msgs[0].evt == WIFI_IP_ACQUIRED;
    assert Queued(n, WIFI_DISCONNECTED) ==> Queued(p, WIFI_DISCONNECTED) || n.queue.msgs[0].evt == WIFI_DISCONNECTED;
  }

  /** From an awake state a step leads to one exactly if it strands no wait. */
  lemma StepKeepsAwakeIff(n: Net, l: Label, max: nat)
    requires Honest(n) && Awake(n)
    ensures Awake(Step(n, l, max)) <==> !Strands(n, l)
  {
    hide Honest, Process, OnCallback, Fits, Ignored;
    match l
    case Call(c) =>
      if Strands(n, l) {
        StrandingIsNotAwake(n, c);
      } else {
        CallbackKeepsAwake(n, c);
      }
    case Dispatch(lib, during) =>
      if n.queue.msgs != [] {
        var m := n.queue.msgs[0];
        var p := n.(queue := n.queue.(msgs := n.queue.msgs[1..]));
        PopKeepsHonest(n);
        if m.group == WIFI_EVT || m.group == PROV_EVT {
          ProcessKeepsHonest(p, m, max, lib, during);
          if Ignored(n.state, m.evt) {
            PopKeepsAwake(n);
          }
        } else {
          PopKeepsAwake(n);
        }
      }
  }

  /**
   In every run, whatever stale events are queued, no wait is stuck up to step n exactly if no callback before strands
   one. A wait that is not stuck: CONNECTING has its timer armed or WIFI_CONNECTED or TIMEOUT queued, and
   WAITING_FOR_IP_ADDRESS its timer armed or WIFI_IP_ACQUIRED, TIMEOUT or WIFI_DISCONNECTED queued; or a message was
   lost.
   */
  lemma {:induction false} NeverStuckIff(tr: Trace, run: Run, max: nat, boot: Lib, n: nat)
    requires Behavior(tr, run, max, boot)
    ensures (forall k: nat :: k <= n ==> Awake(tr(k))) <==>
            forall k: nat {:trigger run(k)} :: k < n ==> !Strands(tr(k), run(k))
  {
    hide Honest, Process, Step, Awake, Strands;
    if n == 0 {
      BootState(max, boot);
      NoWaitIsAwake(tr(0));
    } else {
      NeverStuckIff(tr, run, max, boot, n - 1);
      HonestAlways(tr, run, max, boot, n - 1);
      var _ := run(n - 1);
      if Awake(tr(n - 1)) {
        StepKeepsAwakeIff(tr(n - 1), run(n - 1), max);
      }
    }
  }

  ghost predicate PhasesRespected(tr: Trace, run: Run) {
    forall k: nat {:trigger run(k)} :: InPhase(tr(k), run(k))
  }

  /** Hence no wait is ever stuck if the driver reports connect results and addresses in their own phase. */
  lemma NeverStuck(tr: Trace, run: Run, max: nat, boot: Lib, k: nat)
    requires Behavior(tr, run, max, boot) && PhasesRespected(tr, run)
    ensures Awake(tr(k))
  {
    hide Honest, Process, Step, Awake;
    forall j: nat ensures !Strands(tr(j), run(j)) {
      assert InPhase(tr(j), run(j));
    }
    NeverStuckIff(tr, run, max, boot, k);
  }

  lemma NoWaitIsAwake(n: Net)
    requires !Handshake(n.state)
    ensures Awake(n)
  {
  }

  // ---- what is stored ----

  lemma EnterStores(n: Net, lib: Lib, during: seq<Callback>)
    ensures Enter(n, lib, during).stores == n.stores
            || (n.state == STORING_CREDENTIALS && Enter(n, lib, during).stores == n.stores + [n.provCreds])
  {
    hide OnCallbacks, Put;
    CallbacksKeepMachine(n, during);
    PutKeepsStores(n, if lib.noCredentials then WIFI_CREDS_NOT_FOUND else WIFI_CREDS_OK, WIFI_EVT);
    PutKeepsStores(OnCallbacks(n, during), WIFI_IFACE_ERROR, WIFI_EVT);
    PutKeepsStores(n, PROVISIONING_STORE_CREDENTIALS_ERROR, PROV_EVT);
    PutKeepsStores(n.(stores := n.stores + [n.provCreds]), PROVISIONING_STORE_CREDENTIALS_OK, PROV_EVT);
    var m := n.(tries := 0, timer := false, hasIface := lib.hasIface);
    PutKeepsStores(m, WIFI_IFACE_ERROR, WIFI_EVT);
    PutKeepsStores(m, WIFI_IFACE_UP, WIFI_EVT);
  }

  lemma PutKeepsStores(n: Net, e: Event, g: Group)
    ensures Put(n, e, g).stores == n.stores
  {
  }

  lemma TransitionStores(n: Net, s: WifiState, lib: Lib, during: seq<Callback>)
    ensures var u := Transition(n, s, lib, during);
            u.stores == n.stores || (s == STORING_CREDENTIALS && u.stores == n.stores + [n.provCreds])
  {
    hide Enter, Handshake;
    var left := n.(tries := if Handshake(n.state) && s != n.state then 0 else n.tries,
                   gate := n.gate && n.state != CONNECTED, state := s);
    assert Transition(n, s, lib, during) == Enter(left, lib, during);
    hide Transition;
    EnterStores(left, lib, during);
  }

  /** A store happens only on entering STORING_CREDENTIALS from PROVISIONING with a received pair. */
  lemma ProcessStores(n: Net, e: Event, max: nat, lib: Lib, during: seq<Callback>)
    ensures var u := Process(n, e, max, lib, during);
            u.stores == n.stores
            || (&& n.state == PROVISIONING && e == PROVISIONING_CREDS_RECEIVED && u.state == STORING_CREDENTIALS
                && u.stores == n.stores + [n.provCreds])
  {
    hide Enter, Transition, Target, Restarts;
    StoringTarget(n.state, e);
    if Handshake(n.state) && e == TIMEOUT {
      var m := n.(tries := (n.tries + 1) % 0x100);
      EnterStores(m, lib, during);
      TransitionStores(m, PROVISIONING, lib, during);
    } else if Restarts(n.state, e) {
      EnterStores(n, lib, during);
    } else if Target(n.state, e) != n.state {
      PlainTransition(n, e, max, lib, during);
      TransitionStores(n, Target(n.state, e), lib, during);
      TransitionStores(n.(timer := false), Target(n.state, e), lib, during);
    }
  }

  lemma StoringTarget(s: WifiState, e: Event)
    ensures Target(s, e) == STORING_CREDENTIALS && s != STORING_CREDENTIALS ==>
              s == PROVISIONING && e == PROVISIONING_CREDS_RECEIVED
    ensures Restarts(s, e) ==> s != STORING_CREDENTIALS
  {
  }

  /** In every run each successful store writes exactly the pair committed last, and only after a commit. */
  lemma StoresLastCommit(tr: Trace, run: Run, max: nat, boot: Lib, k: nat)
    requires Behavior(tr, run, max, boot) && tr(k + 1).stores != tr(k).stores
    ensures tr(k).commits != []
    ensures tr(k + 1).stores == tr(k).stores + [tr(k).commits[|tr(k).commits| - 1]]
    ensures tr(k).state == PROVISIONING && tr(k + 1).state == STORING_CREDENTIALS
    ensures Handled(tr(k), run(k)) == [PROVISIONING_CREDS_RECEIVED]
  {
    hide Process, OnCallback, Honest, Fits;
    var n, l := tr(k), run(k);
    HonestAlways(tr, run, max, boot, k);
    match l
    case Call(c) => CallbackKeepsMachine(n, c);
    case Dispatch(lib, during) =>
      if n.queue.msgs != [] {
        var m := n.queue.msgs[0];
        var p := n.(queue := n.queue.(msgs := n.queue.msgs[1..]));
        PopKeepsHonest(n);
        ProcessStores(p, m.evt, max, lib, during);
        ReceivedNeedsCommit(p, m);
      }
  }

  lemma ReceivedNeedsCommit(n: Net, m: Msg)
    requires Honest(n) && Fits(m, n.hasIface, n.commits != [])
    ensures m.group != MQTT_EVT && m.evt == PROVISIONING_CREDS_RECEIVED ==>
              n.commits != [] && n.provCreds == n.commits[|n.commits| - 1]
  {
  }
}
