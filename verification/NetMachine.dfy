/**
 The connection manager as a value: the Wi-Fi state machine of `Netmgnt`, the one-shot timer and the driver
 callbacks of `WifiStation`, provisioning, and the event queue between them.
 */
module NetMachine {
  import opened Types
  import opened Credentials

  datatype WifiState =
    | INITIALIZING
    | LOADING_CREDENTIALS
    | CONNECTING
    | WAITING_FOR_IP_ADDRESS
    | CONNECTED
    | IFACE_ERROR
    | PROVISIONING
    | STORING_CREDENTIALS

  /** `gate` is the Wi-Fi flag of MQTT, `provCreds` the copy Provisioning keeps; `commits`, `stores` are histories. */
  datatype Net = Net(
    state: WifiState, tries: byte, timer: bool, hasIface: bool, gate: bool,
    provOn: bool, bleUp: bool, ble: Creds, provCreds: Creds,
    commits: seq<Creds>, stores: seq<Creds>, queue: Queue)

  /** What the libraries answer while one event is handled. */
  datatype Lib = Lib(hasIface: bool, ifUp: bool, noCredentials: bool, connectRet: int,
                     bleRet: int, settingsRet: int, advRet: int, storeRet: int)

  /** What other threads and interrupts do between, and while the dispatcher sleeps within, handled events. */
  datatype Callback =
    | ConnectResult(status: int)
    | DisconnectResult
    | AddressAdded
    | TimerExpires
    | BleWrite(half: Half, data: seq<byte>)
    | MqttMessage(evt: Event)

  predicate Handshake(s: WifiState) { s == CONNECTING || s == WAITING_FOR_IP_ADDRESS }

  function Put(n: Net, e: Event, g: Group): Net { n.(queue := n.queue.Put(Msg(e, g))) }

  /** `write_ssid` or `write_password`; a completed pair is copied by `incoming_data_callback` and announced. */
  function OnBleWrite(n: Net, half: Half, data: seq<byte>): Net {
    var (ble, pairs) := WriteHalf(n.ble, half, data);
    if pairs == [] then n.(ble := ble)
    else Put(n.(ble := ble, provCreds := pairs[0], commits := n.commits + [pairs[0]]),
             PROVISIONING_CREDS_RECEIVED, PROV_EVT)
  }

  function OnCallback(n: Net, c: Callback): Net {
    match c
    case ConnectResult(status) => if status == 0 then Put(n.(timer := false), WIFI_CONNECTED, WIFI_EVT) else n
    case DisconnectResult => Put(n, WIFI_DISCONNECTED, WIFI_EVT)
    case AddressAdded => Put(n.(timer := false), WIFI_IP_ACQUIRED, WIFI_EVT)
    case TimerExpires => if n.timer then Put(n.(timer := false), TIMEOUT, WIFI_EVT) else n
    case BleWrite(half, data) => if n.bleUp then OnBleWrite(n, half, data) else n
    case MqttMessage(evt) => Put(n, evt, MQTT_EVT)
  }

  function OnCallbacks(n: Net, cs: seq<Callback>): Net {
    if cs == [] then n else OnCallback(OnCallbacks(n, cs[..|cs| - 1]), cs[|cs| - 1])
  }

  // ---- entering a state ----

  function InitWifi(n: Net, lib: Lib): Net {
    var m := n.(timer := false, hasIface := lib.hasIface);
    if !lib.hasIface then Put(m, WIFI_IFACE_ERROR, WIFI_EVT)
    else if lib.ifUp then Put(m, WIFI_IFACE_UP, WIFI_EVT)
    else m
  }

  function ConnectToWifi(n: Net, lib: Lib): Net {
    if !n.hasIface then Put(n, WIFI_IFACE_ERROR, WIFI_EVT)
    else
      var m := if lib.connectRet != 0 then Put(n, WIFI_IFACE_ERROR, WIFI_EVT) else n;
      m.(timer := true)
  }

  function StartProvisioning(n: Net, lib: Lib): Net {
    if lib.bleRet != 0 then n
    else n.(bleUp := true, provOn := lib.settingsRet == 0 && lib.advRet == 0)
  }

  function StoreCredentials(n: Net, lib: Lib): Net {
    if lib.storeRet != 0 then Put(n, PROVISIONING_STORE_CREDENTIALS_ERROR, PROV_EVT)
    else Put(n.(stores := n.stores + [n.provCreds]), PROVISIONING_STORE_CREDENTIALS_OK, PROV_EVT)
  }

  /**
   `on_entry`; `during` is what happens meanwhile: while CONNECTING sleeps a second and CONNECTED a tenth, and before
   `start_dhcp` has armed the timer.
   */
  function Enter(n: Net, lib: Lib, during: seq<Callback>): Net {
    match n.state
    case INITIALIZING => InitWifi(n.(tries := 0), lib)
    case LOADING_CREDENTIALS => Put(n, if lib.noCredentials then WIFI_CREDS_NOT_FOUND else WIFI_CREDS_OK, WIFI_EVT)
    case CONNECTING => ConnectToWifi(OnCallbacks(n, during), lib)
    case WAITING_FOR_IP_ADDRESS => OnCallbacks(n, during).(timer := true)
    case CONNECTED => OnCallbacks(n, during).(gate := true, provOn := false)
    case PROVISIONING => if n.provOn then n else StartProvisioning(n, lib)
    case STORING_CREDENTIALS => StoreCredentials(n, lib)
    case IFACE_ERROR => n
  }

  /** `transition`: leave the current state, then enter the new one. */
  function Transition(n: Net, s: WifiState, lib: Lib, during: seq<Callback>): Net {
    var left := n.(tries := if Handshake(n.state) && s != n.state then 0 else n.tries,
                   gate := n.gate && n.state != CONNECTED);
    Enter(left.(state := s), lib, during)
  }

  /** A timeout: one more try, or provisioning. `canRetry` increments an 8-bit counter. */
  function Retry(n: Net, max: nat, lib: Lib, during: seq<Callback>): Net {
    var t := (n.tries + 1) % 0x100;
    var m := n.(tries := t);
    if t < max then Enter(m, lib, during) else Transition(m, PROVISIONING, lib, during)
  }

  /** The state an event leads to, if it is a plain transition. */
  function Target(s: WifiState, e: Event): (t: WifiState)
  {
    match (s, e)
    case (INITIALIZING, WIFI_IFACE_UP) => LOADING_CREDENTIALS
    case (INITIALIZING, WIFI_IFACE_ERROR) => IFACE_ERROR
    case (LOADING_CREDENTIALS, WIFI_CREDS_OK) => CONNECTING
    case (LOADING_CREDENTIALS, WIFI_CREDS_NOT_FOUND) => PROVISIONING
    case (CONNECTING, WIFI_CONNECTED) => WAITING_FOR_IP_ADDRESS
    case (WAITING_FOR_IP_ADDRESS, WIFI_IP_ACQUIRED) => CONNECTED
    case (WAITING_FOR_IP_ADDRESS, WIFI_DISCONNECTED) => CONNECTING
    case (CONNECTED, WIFI_DISCONNECTED) => CONNECTING
    case (PROVISIONING, PROVISIONING_CREDS_RECEIVED) => STORING_CREDENTIALS
    case (STORING_CREDENTIALS, PROVISIONING_STORE_CREDENTIALS_OK) => LOADING_CREDENTIALS
    case (STORING_CREDENTIALS, PROVISIONING_STORE_CREDENTIALS_ERROR) => PROVISIONING
    case _ => s
  }

  /** Events that re-enter the current state. */
  predicate Restarts(s: WifiState, e: Event) {
    || (s == INITIALIZING && e == START)
    || (s == LOADING_CREDENTIALS && e == WIFI_CREDS_FAIL)
    || (s == PROVISIONING && e == PROVISIONING_STORE_CREDENTIALS_ERROR)
  }

  /** `process_state`. */
  function Process(n: Net, e: Event, max: nat, lib: Lib, during: seq<Callback>): Net {
    if Handshake(n.state) && e == TIMEOUT then Retry(n, max, lib, during)
    else if Restarts(n.state, e) then Enter(n, lib, during)
    else if Target(n.state, e) == n.state then n
    else
      var m := if n.state == WAITING_FOR_IP_ADDRESS && e == WIFI_DISCONNECTED then n.(timer := false) else n;
      Transition(m, Target(n.state, e), lib, during)
  }

  /** One turn of the dispatch loop. */
  function Handle(n: Net, max: nat, lib: Lib, during: seq<Callback>): Net {
    if n.queue.msgs == [] then n
    else
      var m := n.queue.msgs[0];
      var popped := n.(queue := n.queue.(msgs := n.queue.msgs[1..]));
      if m.group == WIFI_EVT || m.group == PROV_EVT then Process(popped, m.evt, max, lib, during) else popped
  }

  function PowerUp(): Net {
    Net(INITIALIZING, 0, false, false, false, false, false, CLEAR, CLEAR, [], [], Queue([], false))
  }

  datatype Label = Call(c: Callback) | Dispatch(lib: Lib, during: seq<Callback>)

  function Step(n: Net, l: Label, max: nat): Net {
    match l
    case Call(c) => OnCallback(n, c)
    case Dispatch(lib, during) => Handle(n, max, lib, during)
  }

  /** The event the next turn of the dispatcher gives to the state machine, if any. */
  function Handled(n: Net, l: Label): seq<Event> {
    if l.Dispatch? && n.queue.msgs != [] && n.queue.msgs[0].group != MQTT_EVT && n.queue.msgs[0].group != APP_EVT
    then [n.queue.msgs[0].evt] else []
  }

  type Trace = nat -> Net
  type Run = nat -> Label

  /** A run of the device from power-up: the dispatcher first processes START, then everything interleaves. */
  ghost predicate Behavior(tr: Trace, run: Run, max: nat, boot: Lib) {
    && tr(0) == Process(PowerUp(), START, max, boot, [])
    && forall k: nat {:trigger run(k)} :: tr(k + 1) == Step(tr(k), run(k), max)
  }
}
