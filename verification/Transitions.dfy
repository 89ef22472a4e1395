/** Where each state of the connection manager leads, why it was entered, and that it gets connected. */
module Transitions {
  import opened Types
  import opened Credentials
  import opened NetMachine
  import opened NetProofs

  // ---- every arc ----

  /** The timeout uses up the last try. */
  predicate LastTry(n: Net, max: nat) { (n.tries + 1) % 0x100 >= max }

  /** Which events lead where, from each state, and that nothing else leads anywhere. */
  lemma ArcsIff(n: Net, l: Label, max: nat)
    ensures var e, u := Handled(n, l), Step(n, l, max).state;
            match n.state
            case INITIALIZING =>
              && (u == LOADING_CREDENTIALS <==> e == [WIFI_IFACE_UP])
              && (u == IFACE_ERROR <==> e == [WIFI_IFACE_ERROR])
              && (u == INITIALIZING || u == LOADING_CREDENTIALS || u == IFACE_ERROR)
            case LOADING_CREDENTIALS =>
              && (u == CONNECTING <==> e == [WIFI_CREDS_OK])
              && (u == PROVISIONING <==> e == [WIFI_CREDS_NOT_FOUND])
              && (u == LOADING_CREDENTIALS || u == CONNECTING || u == PROVISIONING)
            case CONNECTING =>
              && (u == WAITING_FOR_IP_ADDRESS <==> e == [WIFI_CONNECTED])
              && (u == PROVISIONING <==> e == [TIMEOUT] && LastTry(n, max))
              && (u == CONNECTING || u == WAITING_FOR_IP_ADDRESS || u == PROVISIONING)
            case WAITING_FOR_IP_ADDRESS =>
              && (u == CONNECTED <==> e == [WIFI_IP_ACQUIRED])
              && (u == CONNECTING <==> e == [WIFI_DISCONNECTED])
              && (u == PROVISIONING <==> e == [TIMEOUT] && LastTry(n, max))
              && (u == WAITING_FOR_IP_ADDRESS || u == CONNECTED || u == CONNECTING || u == PROVISIONING)
            case CONNECTED =>
              && (u == CONNECTING <==> e == [WIFI_DISCONNECTED])
              && (u == CONNECTED || u == CONNECTING)
            case PROVISIONING =>
              && (u == STORING_CREDENTIALS <==> e == [PROVISIONING_CREDS_RECEIVED])
              && (u == PROVISIONING || u == STORING_CREDENTIALS)
            case STORING_CREDENTIALS =>
              && (u == LOADING_CREDENTIALS <==> e == [PROVISIONING_STORE_CREDENTIALS_OK])
              && (u == PROVISIONING <==> e == [PROVISIONING_STORE_CREDENTIALS_ERROR])
              && (u == STORING_CREDENTIALS || u == LOADING_CREDENTIALS || u == PROVISIONING)
            case IFACE_ERROR => u == IFACE_ERROR
  {
    hide Process, OnCallback;
    match l
    case Call(c) => CallbackKeepsMachine(n, c);
    case Dispatch(lib, during) =>
      if n.queue.msgs != [] {
        ProcessMoves(n.(queue := n.queue.(msgs := n.queue.msgs[1..])), n.queue.msgs[0].evt, max, lib, during);
      }
  }

  /** The events that make a state act again: what they queue or start, without leaving it. */
  lemma ReEntries(n: Net, lib: Lib, during: seq<Callback>, max: nat)
    ensures n.state == LOADING_CREDENTIALS ==>
              Process(n, WIFI_CREDS_FAIL, max, lib, during) ==
              Put(n, if lib.noCredentials then WIFI_CREDS_NOT_FOUND else WIFI_CREDS_OK, WIFI_EVT)
    ensures n.state == PROVISIONING && !n.provOn && lib.bleRet == 0 && lib.settingsRet == 0 && lib.advRet == 0 ==>
              Process(n, PROVISIONING_STORE_CREDENTIALS_ERROR, max, lib, during) == n.(bleUp := true, provOn := true)
    ensures n.state == INITIALIZING && !lib.hasIface ==>
              Process(n, START, max, lib, during) ==
              Put(n.(tries := 0, timer := false, hasIface := false), WIFI_IFACE_ERROR, WIFI_EVT)
  {
  }

  /** The attempt is made, or its failure queued, and either way its timer runs. */
  lemma ConnectRequest(n: Net, lib: Lib)
    requires n.state == CONNECTING && n.hasIface
    ensures Enter(n, lib, []) ==
            if lib.connectRet == 0 then n.(timer := true) else Put(n, WIFI_IFACE_ERROR, WIFI_EVT).(timer := true)
  {
  }

  // ---- why a state was entered ----

  datatype Cause = PowerOn | By(from: WifiState, evt: Event)

  /** The state before the last change of state, and the event that changed it. */
  ghost function LastCause(tr: Trace, run: Run, k: nat): Cause {
    if k == 0 then PowerOn
    else
      var e := Handled(tr(k - 1), run(k - 1));
      if tr(k).state != tr(k - 1).state && e != [] then By(tr(k - 1).state, e[0]) else LastCause(tr, run, k - 1)
  }

  /** In every run each state was entered from where, and by the event, it is for. */
  ghost predicate EnteredRightly(s: WifiState, c: Cause) {
    match s
    case INITIALIZING => c == PowerOn
    case LOADING_CREDENTIALS =>
      c == By(INITIALIZING, WIFI_IFACE_UP) || c == By(STORING_CREDENTIALS, PROVISIONING_STORE_CREDENTIALS_OK)
    case CONNECTING =>
      || c == By(LOADING_CREDENTIALS, WIFI_CREDS_OK)
      || c == By(WAITING_FOR_IP_ADDRESS, WIFI_DISCONNECTED)
      || c == By(CONNECTED, WIFI_DISCONNECTED)
    case WAITING_FOR_IP_ADDRESS => c == By(CONNECTING, WIFI_CONNECTED)
    case CONNECTED => c == By(WAITING_FOR_IP_ADDRESS, WIFI_IP_ACQUIRED)
    case PROVISIONING =>
      || c == By(LOADING_CREDENTIALS, WIFI_CREDS_NOT_FOUND)
      || c == By(CONNECTING, TIMEOUT)
      || c == By(WAITING_FOR_IP_ADDRESS, TIMEOUT)
      || c == By(STORING_CREDENTIALS, PROVISIONING_STORE_CREDENTIALS_ERROR)
    case STORING_CREDENTIALS => c == By(PROVISIONING, PROVISIONING_CREDS_RECEIVED)
    case IFACE_ERROR => c == By(INITIALIZING, WIFI_IFACE_ERROR)
  }

  lemma {:induction false} EveryStateIsExplained(tr: Trace, run: Run, max: nat, boot: Lib, k: nat)
    requires Behavior(tr, run, max, boot)
    ensures EnteredRightly(tr(k).state, LastCause(tr, run, k))
  {
    hide Step, Process;
    if k == 0 {
      BootState(max, boot);
    } else {
      EveryStateIsExplained(tr, run, max, boot, k - 1);
      ArcsIff(tr(k - 1), run(k - 1), max);
    }
  }

  // ---- what the driver, the credentials library and Bluetooth do ----

  /** Results that change nothing, and what stops the timer. */
  lemma DriverEvents(n: Net, status: int)
    ensures status != 0 ==> OnCallback(n, ConnectResult(status)) == n
    ensures !OnCallback(n, ConnectResult(0)).timer && !OnCallback(n, AddressAdded).timer
    ensures OnCallback(n, DisconnectResult).timer == n.timer
    ensures !n.timer ==> OnCallback(n, TimerExpires) == n
    ensures !OnCallback(n, TimerExpires).timer
  {
  }

  /** A new pair is stored exactly if the library accepts it, when the received event is handled. */
  lemma StoresIff(n: Net, lib: Lib, during: seq<Callback>, max: nat)
    requires n.state == PROVISIONING && n.queue.msgs == [Msg(PROVISIONING_CREDS_RECEIVED, PROV_EVT)]
    ensures var u := Step(n, Dispatch(lib, during), max);
            && u.state == STORING_CREDENTIALS
            && (lib.storeRet == 0 ==> u.stores == n.stores + [n.provCreds]
                                      && u.queue.msgs == [Msg(PROVISIONING_STORE_CREDENTIALS_OK, PROV_EVT)])
            && (lib.storeRet != 0 ==> u.stores == n.stores
                                      && u.queue.msgs == [Msg(PROVISIONING_STORE_CREDENTIALS_ERROR, PROV_EVT)])
  {
  }

  /** Entering its state enables provisioning exactly if it was on, or Bluetooth, settings and advertising all start. */
  lemma ProvisioningStartsIff(n: Net, lib: Lib, during: seq<Callback>)
    requires n.state == PROVISIONING
    ensures var u := Enter(n, lib, during);
            && (u.provOn <==> n.provOn || (lib.bleRet == 0 && lib.settingsRet == 0 && lib.advRet == 0))
            && (u.bleUp <==> n.bleUp || (!n.provOn && lib.bleRet == 0))
  {
  }

  lemma {:induction false} ExpiriesWithoutTimer(n: Net, cs: seq<Callback>)
    requires !n.timer && forall i :: 0 <= i < |cs| ==> cs[i].TimerExpires?
    ensures OnCallbacks(n, cs) == n
  {
    if cs != [] {
      ExpiriesWithoutTimer(n, cs[..|cs| - 1]);
    }
  }

  /** After a disconnect while waiting for an address the old timer cannot expire into the new attempt. */
  lemma DisconnectDisarms(n: Net, lib: Lib, during: seq<Callback>, max: nat)
    requires n.state == WAITING_FOR_IP_ADDRESS && n.hasIface && lib.connectRet == 0
    requires forall i :: 0 <= i < |during| ==> during[i].TimerExpires?
    ensures var u := Process(n, WIFI_DISCONNECTED, max, lib, during);
            u.state == CONNECTING && u.timer && u.queue == n.queue
  {
    hide OnCallbacks;
    var left := n.(timer := false, tries := 0, state := CONNECTING, gate := n.gate && n.state != CONNECTED);
    ExpiriesWithoutTimer(left, during);
  }

  // ---- it gets connected ----

  /** Every library call of one handled event answers well. */
  predicate Good(lib: Lib) { lib.hasIface && lib.ifUp && !lib.noCredentials && lib.connectRet == 0 }

  /** The only queued message. */
  predicate OneQueued(n: Net, e: Event, g: Group) { n.queue.msgs == [Msg(e, g)] && n.hasIface }

  lemma BootComesUp(max: nat, boot: Lib)
    requires boot.hasIface && boot.ifUp
    ensures var n := Process(PowerUp(), START, max, boot, []);
            && n.state == INITIALIZING && OneQueued(n, WIFI_IFACE_UP, WIFI_EVT)
            && n.tries == 0 && !n.bleUp && !n.provOn && n.ble == CLEAR && n.stores == []
  {
  }

  lemma ComesUp(n: Net, lib: Lib, max: nat)
    requires n.state == INITIALIZING && OneQueued(n, WIFI_IFACE_UP, WIFI_EVT)
    ensures var u := Step(n, Dispatch(lib, []), max);
            u == n.(state := LOADING_CREDENTIALS, gate := n.gate,
                    queue := Queue([Msg(if lib.noCredentials then WIFI_CREDS_NOT_FOUND else WIFI_CREDS_OK, WIFI_EVT)],
                                   n.queue.dropped))
  {
  }

  lemma StartsConnecting(n: Net, lib: Lib, max: nat)
    requires n.state == LOADING_CREDENTIALS && OneQueued(n, WIFI_CREDS_OK, WIFI_EVT) && lib.connectRet == 0
    ensures var u := Step(n, Dispatch(lib, []), max);
            u == n.(state := CONNECTING, timer := true, queue := Queue([], n.queue.dropped))
  {
  }

  lemma GetsLink(n: Net, lib: Lib, max: nat)
    requires n.state == CONNECTING && n.queue.msgs == [] && n.hasIface
    ensures var u := Step(Step(n, Call(ConnectResult(0)), max), Dispatch(lib, []), max);
            u == n.(state := WAITING_FOR_IP_ADDRESS, timer := true, tries := 0)
  {
  }

  lemma GetsAddress(n: Net, lib: Lib, max: nat)
    requires n.state == WAITING_FOR_IP_ADDRESS && n.queue.msgs == [] && n.hasIface
    ensures var u := Step(Step(n, Call(AddressAdded), max), Dispatch(lib, []), max);
            u.state == CONNECTED && u.gate && !u.timer && u.queue.msgs == []
  {
  }

  /** Without an interface the first handled event is the error. */
  lemma NoInterfaceFails(tr: Trace, run: Run, max: nat, boot: Lib, lib: Lib)
    requires Behavior(tr, run, max, boot) && !boot.hasIface && run(0) == Dispatch(lib, [])
    ensures tr(1).state == IFACE_ERROR
  {
    assert tr(0).state == INITIALIZING && tr(0).queue.msgs == [Msg(WIFI_IFACE_ERROR, WIFI_EVT)];
    assert tr(0 + 1) == Step(tr(0), run(0), max);
  }

  /** The six steps of a first connection. */
  ghost predicate FirstConnection(run: Run, l0: Lib, l1: Lib, l3: Lib, l5: Lib) {
    && run(0) == Dispatch(l0, []) && run(1) == Dispatch(l1, []) && run(2) == Call(ConnectResult(0))
    && run(3) == Dispatch(l3, []) && run(4) == Call(AddressAdded) && run(5) == Dispatch(l5, [])
    && Good(l0) && Good(l1)
  }

  /** From power-up, with stored credentials and good answers, the device is connected after six steps. */
  lemma GetsConnected(tr: Trace, run: Run, max: nat, boot: Lib, l0: Lib, l1: Lib, l3: Lib, l5: Lib)
    requires Behavior(tr, run, max, boot) && Good(boot) && FirstConnection(run, l0, l1, l3, l5)
    ensures tr(1).state == LOADING_CREDENTIALS && tr(2).state == CONNECTING && tr(4).state == WAITING_FOR_IP_ADDRESS
    ensures tr(6).state == CONNECTED && tr(6).gate
  {
    hide Step, Process;
    BootComesUp(max, boot);
    Unfold(tr, run, max, boot, 0);
    ComesUp(tr(0), l0, max);
    Unfold(tr, run, max, boot, 1);
    StartsConnecting(tr(1), l1, max);
    Unfold(tr, run, max, boot, 2);
    Unfold(tr, run, max, boot, 3);
    GetsLink(tr(2), l3, max);
    Unfold(tr, run, max, boot, 4);
    Unfold(tr, run, max, boot, 5);
    GetsAddress(tr(4), l5, max);
  }

  lemma Unfold(tr: Trace, run: Run, max: nat, boot: Lib, k: nat)
    requires Behavior(tr, run, max, boot)
    ensures tr(k + 1) == Step(tr(k), run(k), max)
  {
    hide Step, Process;
    var _ := run(k);
  }

  // ---- it gets provisioned ----

  lemma StartsProvisioning(n: Net, lib: Lib, max: nat)
    requires n.state == LOADING_CREDENTIALS && OneQueued(n, WIFI_CREDS_NOT_FOUND, WIFI_EVT) && !n.provOn
    requires lib.bleRet == 0 && lib.settingsRet == 0 && lib.advRet == 0
    ensures var u := Step(n, Dispatch(lib, []), max);
            u == n.(state := PROVISIONING, bleUp := true, provOn := true, queue := Queue([], n.queue.dropped))
  {
  }

  /** The pair a phone sent, as it is stored. */
  function Sent(ssid: seq<byte>, psk: seq<byte>): Creds
    requires |ssid| <= SSID_SIZE && |psk| <= PSK_SIZE
  {
    Creds(Padded(ssid, SSID_SIZE), |ssid|, Padded(psk, PSK_SIZE), |psk|)
  }

  lemma ReceivesPair(n: Net, ssid: seq<byte>, psk: seq<byte>, max: nat)
    requires n.state == PROVISIONING && n.queue.msgs == [] && n.bleUp && n.ble == CLEAR
    requires 0 < |ssid| <= 32 && 0 < |psk| <= 64
    ensures var u := Step(Step(n, Call(BleWrite(Ssid, ssid)), max), Call(BleWrite(Psk, psk)), max);
            && u == n.(provCreds := Sent(ssid, psk), commits := n.commits + [Sent(ssid, psk)],
                       queue := Queue([Msg(PROVISIONING_CREDS_RECEIVED, PROV_EVT)], n.queue.dropped))
  {
  }

  /** Longer values are refused and change nothing. */
  lemma OverlongIsRefused(n: Net, half: Half, data: seq<byte>, max: nat)
    requires |data| > if half == Ssid then 32 else 64
    ensures Step(n, Call(BleWrite(half, data)), max) == n
  {
  }

  lemma LoadsAgain(n: Net, lib: Lib, max: nat)
    requires n.state == STORING_CREDENTIALS && n.queue.msgs == [Msg(PROVISIONING_STORE_CREDENTIALS_OK, PROV_EVT)]
    requires !lib.noCredentials
    ensures var u := Step(n, Dispatch(lib, []), max);
            u == n.(state := LOADING_CREDENTIALS, queue := Queue([Msg(WIFI_CREDS_OK, WIFI_EVT)], n.queue.dropped))
  {
  }

  /** The seven steps of a provisioning. */
  ghost predicate FirstProvisioning(
    run: Run, ssid: seq<byte>, psk: seq<byte>, l0: Lib, l1: Lib, l4: Lib, l5: Lib, l6: Lib)
  {
    && run(0) == Dispatch(l0, []) && run(1) == Dispatch(l1, [])
    && run(2) == Call(BleWrite(Ssid, ssid)) && run(3) == Call(BleWrite(Psk, psk))
    && run(4) == Dispatch(l4, []) && run(5) == Dispatch(l5, []) && run(6) == Dispatch(l6, [])
    && l0.noCredentials && l1.bleRet == 0 && l1.settingsRet == 0 && l1.advRet == 0
    && !l5.noCredentials && l6.connectRet == 0
  }

  /**
   From power-up without credentials: any SSID of 1 to 32 and password of 1 to 64 bytes sent over Bluetooth is stored,
   if the library accepts it, and tried.
   */
  lemma GetsProvisioned(tr: Trace, run: Run, max: nat, boot: Lib, ssid: seq<byte>, psk: seq<byte>,
                        l0: Lib, l1: Lib, l4: Lib, l5: Lib, l6: Lib)
    requires Behavior(tr, run, max, boot) && boot.hasIface && boot.ifUp
    requires FirstProvisioning(run, ssid, psk, l0, l1, l4, l5, l6) && 0 < |ssid| <= 32 && 0 < |psk| <= 64
    ensures tr(2).state == PROVISIONING && tr(2).provOn && tr(5).state == STORING_CREDENTIALS
    ensures tr(5).stores == if l4.storeRet == 0 then [Sent(ssid, psk)] else []
    ensures l4.storeRet == 0 ==> tr(7).state == CONNECTING
    ensures l4.storeRet != 0 ==> tr(6).state == PROVISIONING
  {
    hide Step, Process, Sent;
    BootComesUp(max, boot);
    Unfold(tr, run, max, boot, 0);
    ComesUp(tr(0), l0, max);
    Unfold(tr, run, max, boot, 1);
    StartsProvisioning(tr(1), l1, max);
    Unfold(tr, run, max, boot, 2);
    Unfold(tr, run, max, boot, 3);
    ReceivesPair(tr(2), ssid, psk, max);
    Unfold(tr, run, max, boot, 4);
    StoresIff(tr(4), l4, [], max);
    Unfold(tr, run, max, boot, 5);
    if l4.storeRet == 0 {
      LoadsAgain(tr(5), l5, max);
      Unfold(tr, run, max, boot, 6);
      assert tr(6).state == LOADING_CREDENTIALS && tr(6).queue.msgs == [Msg(WIFI_CREDS_OK, WIFI_EVT)];
      ArcsIff(tr(6), run(6), max);
    } else {
      ArcsIff(tr(5), run(5), max);
    }
  }

  // ---- a silent driver ----

  /** The timer expires and its event is handled, k times. */
  ghost function Expiries(n: Net, lib: Lib, max: nat, k: nat): Net {
    if k == 0 then n
    else Step(Step(Expiries(n, lib, max, k - 1), Call(TimerExpires), max), Dispatch(lib, []), max)
  }

  lemma OneExpiry(n: Net, lib: Lib, max: nat)
    requires Handshake(n.state) && n.timer && n.hasIface && n.queue.msgs == [] && lib.connectRet == 0
    requires n.tries + 1 < 0x100
    ensures var u := Step(Step(n, Call(TimerExpires), max), Dispatch(lib, []), max);
            if n.tries + 1 < max then u == n.(tries := n.tries + 1) else u.state == PROVISIONING
  {
  }

  /** If the driver stays silent, a wait is retried with its timer armed again and gives up at the max-th expiry. */
  lemma {:induction false} SilentDriverGivesUp(n: Net, lib: Lib, max: nat, k: nat)
    requires Handshake(n.state) && n.timer && n.hasIface && n.queue.msgs == [] && lib.connectRet == 0 && n.tries == 0
    requires 1 <= max <= 0xFF && k <= max
    ensures if k < max then Expiries(n, lib, max, k) == n.(tries := k)
            else Expiries(n, lib, max, k).state == PROVISIONING
  {
    hide Step;
    if k > 0 {
      SilentDriverGivesUp(n, lib, max, k - 1);
      OneExpiry(Expiries(n, lib, max, k - 1), lib, max);
    }
  }
}
