/**
 `Netmgnt` with its collaborators `WifiStation`, `Provisioning` and `BluetoothLE`, proved against `NetMachine`.
 The entry and exit actions of the code are shown to implement the transition table.
 */
module Netmgnt {
  import opened Types
  import opened Credentials
  import opened NetMachine
  import opened EventQueue
  import opened Mqtt

  /** `memset` over a buffer, then `memcpy` into its front. */
  method Fill(buf: array<byte>, data: seq<byte>)
    requires |data| <= buf.Length
    modifies buf
    ensures buf[..] == Padded(data, buf.Length)
  {
    var i := 0;
    while i < buf.Length
      invariant i <= buf.Length && forall k :: 0 <= k < i ==> buf[k] == 0
    {
      buf[i] := 0;
      i := i + 1;
    }
    i := 0;
    while i < |data|
      invariant i <= |data|
      invariant forall k :: 0 <= k < buf.Length ==> buf[k] == if k < i then data[k] else 0
    {
      buf[i] := data[i];
      i := i + 1;
    }
  }

  class Provisioning {
    const queue: EventQueue
    var isProvisioningEnabled: bool
    var creds: Creds
    ghost var commits: seq<Creds>
    ghost var stores: seq<Creds>

    constructor (queue: EventQueue)
      ensures this.queue == queue && !isProvisioningEnabled && creds == CLEAR && commits == [] && stores == []
    {
      this.queue := queue;
      isProvisioningEnabled, creds, commits, stores := false, CLEAR, [], [];
    }

    /** `incoming_data_callback`: the structure is copied before the caller clears it. */
    method IncomingDataCallback(c: Creds)
      modifies this`creds, this`commits, queue
      ensures creds == c && commits == old(commits) + [c]
      ensures queue.q == old(queue.q).Put(Msg(PROVISIONING_CREDS_RECEIVED, PROV_EVT))
    {
      creds := c;
      commits := commits + [c];
      queue.Put(Msg(PROVISIONING_CREDS_RECEIVED, PROV_EVT));
    }

    /** `wifi_credentials_set_personal` answers `ret`. */
    method WriteCredentials(ret: int)
      modifies this`stores, queue
      ensures stores == if ret == 0 then old(stores) + [creds] else old(stores)
      ensures queue.q == old(queue.q).Put(Msg(
                if ret == 0 then PROVISIONING_STORE_CREDENTIALS_OK else PROVISIONING_STORE_CREDENTIALS_ERROR,
                PROV_EVT))
    {
      if ret != 0 {
        queue.Put(Msg(PROVISIONING_STORE_CREDENTIALS_ERROR, PROV_EVT));
      } else {
        stores := stores + [creds];
        queue.Put(Msg(PROVISIONING_STORE_CREDENTIALS_OK, PROV_EVT));
      }
    }
  }

  class BluetoothLE {
    const ssid: array<byte>
    const psk: array<byte>
    var ssidLen: nat
    var pskLen: nat
    var isBluetoothEnabled: bool

    constructor ()
      ensures Valid() && fresh(ssid) && fresh(psk) && Value() == CLEAR && !isBluetoothEnabled
    {
      ssid := new byte[SSID_SIZE](_ => 0);
      psk := new byte[PSK_SIZE](_ => 0);
      ssidLen, pskLen, isBluetoothEnabled := 0, 0, false;
      new;
      assert ssid[..] == Zeros(SSID_SIZE) && psk[..] == Zeros(PSK_SIZE);
    }

    ghost predicate Valid() { ssid.Length == SSID_SIZE && psk.Length == PSK_SIZE && ssid != psk }

    ghost function Value(): Creds
      reads this, ssid, psk
    {
      Creds(ssid[..], ssidLen, psk[..], pskLen)
    }

    method ClearCredsBuffer()
      requires Valid()
      modifies this`ssidLen, this`pskLen, ssid, psk
      ensures Value() == CLEAR
    {
      Fill(psk, []);
      pskLen := 0;
      Fill(ssid, []);
      ssidLen := 0;
      assert Padded([], SSID_SIZE) == Zeros(SSID_SIZE) && Padded([], PSK_SIZE) == Zeros(PSK_SIZE);
    }

    method DataCheck(prov: Provisioning)
      requires Valid()
      modifies this`ssidLen, this`pskLen, ssid, psk, prov`creds, prov`commits, prov.queue
      ensures var c := old(Value());
              if Complete(c) then
                Value() == CLEAR && prov.creds == c && prov.commits == old(prov.commits) + [c]
                && prov.queue.q == old(prov.queue.q).Put(Msg(PROVISIONING_CREDS_RECEIVED, PROV_EVT))
              else Value() == c && prov.creds == old(prov.creds) && prov.commits == old(prov.commits)
                   && prov.queue.q == old(prov.queue.q)
    {
      if pskLen != 0 && ssidLen != 0 {
        prov.IncomingDataCallback(Creds(ssid[..], ssidLen, psk[..], pskLen));
        ClearCredsBuffer();
      }
    }

    /** `write_ssid` and `write_password`: an overlong value is refused and changes nothing. */
    method WriteHalf(half: Half, data: seq<byte>, prov: Provisioning) returns (accepted: bool)
      requires Valid()
      modifies this`ssidLen, this`pskLen, ssid, psk, prov`creds, prov`commits, prov.queue
      ensures accepted == Accepts(half, data)
      ensures var (c, pairs) := Credentials.WriteHalf(old(Value()), half, data);
              && Value() == c
              && prov.commits == old(prov.commits) + pairs
              && prov.creds == (if pairs == [] then old(prov.creds) else pairs[0])
              && prov.queue.q == (if pairs == [] then old(prov.queue.q)
                                  else old(prov.queue.q).Put(Msg(PROVISIONING_CREDS_RECEIVED, PROV_EVT)))
    {
      accepted := |data| <= Size(half);
      if !accepted {
        return;
      }
      if half == Ssid {
        Fill(ssid, data);
        ssidLen := |data|;
      } else {
        Fill(psk, data);
        pskLen := |data|;
      }
      assert Value() == Filled(old(Value()), half, data);
      DataCheck(prov);
    }
  }

  class WifiStation {
    const queue: EventQueue
    var timerArmed: bool
    var hasIface: bool

    constructor (queue: EventQueue)
      ensures this.queue == queue && !timerArmed && !hasIface
    {
      this.queue := queue;
      timerArmed, hasIface := false, false;
    }

    method NotifyEvt(e: Event)
      modifies queue
      ensures queue.q == old(queue.q).Put(Msg(e, WIFI_EVT))
    {
      queue.Put(Msg(e, WIFI_EVT));
    }

    method StopConnectTimer()
      modifies this`timerArmed
      ensures !timerArmed
    {
      timerArmed := false;
    }

    /** The handlers of the timer, the Wi-Fi events and the IPv4 events. */
    method OnDriver(c: Callback)
      requires c.ConnectResult? || c.DisconnectResult? || c.AddressAdded? || c.TimerExpires?
      modifies this`timerArmed, queue
      ensures timerArmed == (old(timerArmed) && (c.DisconnectResult? || (c.ConnectResult? && c.status != 0)))
      ensures queue.q ==
              if c.ConnectResult? then
                if c.status == 0 then old(queue.q).Put(Msg(WIFI_CONNECTED, WIFI_EVT)) else old(queue.q)
              else if c.DisconnectResult? then old(queue.q).Put(Msg(WIFI_DISCONNECTED, WIFI_EVT))
              else if c.AddressAdded? then old(queue.q).Put(Msg(WIFI_IP_ACQUIRED, WIFI_EVT))
              else if old(timerArmed) then old(queue.q).Put(Msg(TIMEOUT, WIFI_EVT))
              else old(queue.q)
    {
      match c
      case ConnectResult(status) =>
        if status == 0 {
          StopConnectTimer();
          NotifyEvt(WIFI_CONNECTED);
        }
      case DisconnectResult => NotifyEvt(WIFI_DISCONNECTED);
      case AddressAdded =>
        StopConnectTimer();
        NotifyEvt(WIFI_IP_ACQUIRED);
      case TimerExpires =>
        if timerArmed {
          timerArmed := false;
          NotifyEvt(TIMEOUT);
        }
    }

    method WifiInit(hasIface: bool, ifUp: bool)
      modifies this, queue
      ensures !timerArmed && this.hasIface == hasIface
      ensures queue.q == if !hasIface then old(queue.q).Put(Msg(WIFI_IFACE_ERROR, WIFI_EVT))
                         else if ifUp then old(queue.q).Put(Msg(WIFI_IFACE_UP, WIFI_EVT))
                         else old(queue.q)
    {
      timerArmed := false;
      this.hasIface := hasIface;
      if !hasIface {
        NotifyEvt(WIFI_IFACE_ERROR);
      } else if ifUp {
        NotifyEvt(WIFI_IFACE_UP);
      }
    }

    method ConnectToWifi(connectRet: int)
      modifies this`timerArmed, queue
      ensures timerArmed == (old(timerArmed) || hasIface)
      ensures queue.q == if !hasIface || connectRet != 0 then old(queue.q).Put(Msg(WIFI_IFACE_ERROR, WIFI_EVT))
                         else old(queue.q)
    {
      if !hasIface {
        NotifyEvt(WIFI_IFACE_ERROR);
        return;
      }
      if connectRet != 0 {
        NotifyEvt(WIFI_IFACE_ERROR);
      }
      timerArmed := true;
    }

    method StartDhcp()
      modifies this`timerArmed
      ensures timerArmed
    {
      timerArmed := true;
    }

    method CheckCredentials(none: bool)
      modifies queue
      ensures queue.q == old(queue.q).Put(Msg(if none then WIFI_CREDS_NOT_FOUND else WIFI_CREDS_OK, WIFI_EVT))
    {
      if none {
        NotifyEvt(WIFI_CREDS_NOT_FOUND);
      } else {
        NotifyEvt(WIFI_CREDS_OK);
      }
    }
  }

  class Netmgnt {
    const maxTries: nat
    const queue: EventQueue
    const mqtt: MQTT
    const wifi: WifiStation
    const prov: Provisioning
    const ble: BluetoothLE
    var state: WifiState
    var tries: byte

    constructor (maxTries: nat, queue: EventQueue, mqtt: MQTT, wifi: WifiStation, prov: Provisioning, ble: BluetoothLE)
      requires wifi.queue == queue && prov.queue == queue && ble.Valid()
      ensures Valid() && state == INITIALIZING && tries == 0
      ensures this.maxTries == maxTries && this.queue == queue && this.mqtt == mqtt
      ensures this.wifi == wifi && this.prov == prov && this.ble == ble
    {
      this.maxTries, this.queue, this.mqtt, this.wifi, this.prov, this.ble := maxTries, queue, mqtt, wifi, prov, ble;
      state, tries := INITIALIZING, 0;
    }

    ghost predicate Valid() { wifi.queue == queue && prov.queue == queue && ble.Valid() }

    ghost function Model(): Net
      reads this, queue, mqtt, wifi, prov, ble, ble.ssid, ble.psk
    {
      Net(state, tries, wifi.timerArmed, wifi.hasIface, mqtt.isWifiConnected,
          prov.isProvisioningEnabled, ble.isBluetoothEnabled, ble.Value(), prov.creds,
          prov.commits, prov.stores, queue.q)
    }

    /** One thing another thread or an interrupt does. */
    method Arrives(c: Callback)
      requires Valid()
      modifies queue, wifi`timerArmed, prov`creds, prov`commits, ble`ssidLen, ble`pskLen, ble.ssid, ble.psk
      ensures Model() == OnCallback(old(Model()), c)
    {
      hide Credentials.WriteHalf;
      match c
      case BleWrite(half, data) =>
        if ble.isBluetoothEnabled {
          ghost var before := prov.commits;
          var _ := ble.WriteHalf(half, data, prov);
          assert before + [] == before;
        }
      case MqttMessage(evt) => queue.Put(Msg(evt, MQTT_EVT));
      case _ => wifi.OnDriver(c);
    }

    /** The dispatcher sleeps while other threads go on. */
    method Sleep(during: seq<Callback>)
      requires Valid()
      modifies queue, wifi`timerArmed, prov`creds, prov`commits, ble`ssidLen, ble`pskLen, ble.ssid, ble.psk
      ensures Model() == OnCallbacks(old(Model()), during)
    {
      hide OnCallback;
      var i := 0;
      assert during[..0] == [];
      while i < |during|
        invariant i <= |during|
        invariant Model() == OnCallbacks(old(Model()), during[..i])
      {
        Arrives(during[i]);
        assert during[..i + 1][..i] == during[..i];
        i := i + 1;
      }
      assert during[..|during|] == during;
    }

    method StartProvisioning(lib: Lib)
      modifies prov`isProvisioningEnabled, ble`isBluetoothEnabled
      ensures Model() == NetMachine.StartProvisioning(old(Model()), lib)
    {
      if lib.bleRet != 0 {
        return;
      }
      ble.isBluetoothEnabled := true;
      prov.isProvisioningEnabled := lib.settingsRet == 0 && lib.advRet == 0;
    }

    /** The entry actions that sleep or wait for the driver. */
    method OnEntrySleeping(lib: Lib, during: seq<Callback>)
      requires Valid() && (Handshake(state) || state == CONNECTED)
      modifies queue, mqtt`isWifiConnected, wifi, prov, ble, ble.ssid, ble.psk
      ensures Model() == Enter(old(Model()), lib, during)
    {
      hide OnCallbacks, BluetoothLE.Value;
      Sleep(during);
      match state
      case CONNECTING => wifi.ConnectToWifi(lib.connectRet);
      case WAITING_FOR_IP_ADDRESS => wifi.StartDhcp();
      case CONNECTED =>
        mqtt.ReleaseMqtt();
        if prov.isProvisioningEnabled {
          prov.isProvisioningEnabled := false;
        }
    }

    method OnEntry(lib: Lib, during: seq<Callback>)
      requires Valid()
      modifies this`tries, queue, mqtt`isWifiConnected, wifi, prov, ble, ble.ssid, ble.psk
      ensures Model() == Enter(old(Model()), lib, during)
    {
      hide OnCallbacks, BluetoothLE.Value;
      match state
      case INITIALIZING =>
        tries := 0;
        wifi.WifiInit(lib.hasIface, lib.ifUp);
      case LOADING_CREDENTIALS => wifi.CheckCredentials(lib.noCredentials);
      case CONNECTING | WAITING_FOR_IP_ADDRESS | CONNECTED => OnEntrySleeping(lib, during);
      case PROVISIONING =>
        if !prov.isProvisioningEnabled {
          StartProvisioning(lib);
        }
      case STORING_CREDENTIALS => prov.WriteCredentials(lib.storeRet);
      case IFACE_ERROR =>
    }

    method OnExit(target: WifiState)
      modifies this`tries, mqtt`isWifiConnected
      ensures Model() == old(Model()).(
                tries := if Handshake(state) && target != state then 0 else old(tries),
                gate := old(mqtt.isWifiConnected) && state != CONNECTED)
    {
      match state
      case CONNECTING | WAITING_FOR_IP_ADDRESS =>
        if target != state {
          tries := 0;
        }
      case CONNECTED => mqtt.BlockMqtt();
      case _ =>
    }

    method Transition(target: WifiState, lib: Lib, during: seq<Callback>)
      requires Valid()
      modifies this, queue, mqtt`isWifiConnected, wifi, prov, ble, ble.ssid, ble.psk
      ensures Model() == NetMachine.Transition(old(Model()), target, lib, during)
    {
      hide Enter, BluetoothLE.Value;
      OnExit(target);
      state := target;
      OnEntry(lib, during);
    }

    method RestartState(lib: Lib, during: seq<Callback>)
      requires Valid()
      modifies this`tries, queue, mqtt`isWifiConnected, wifi, prov, ble, ble.ssid, ble.psk
      ensures Model() ==
              Enter(old(Model()).(gate := old(mqtt.isWifiConnected) && state != CONNECTED), lib, during)
    {
      hide Enter, BluetoothLE.Value;
      OnExit(state);
      OnEntry(lib, during);
    }

    method CanRetry() returns (again: bool)
      modifies this`tries
      ensures tries == (old(tries) + 1) % 0x100 && again == (tries < maxTries)
    {
      tries := (tries + 1) % 0x100;
      again := tries < maxTries;
    }

    method RetryOrProvision(lib: Lib, during: seq<Callback>)
      requires Valid() && Handshake(state)
      modifies this, queue, mqtt`isWifiConnected, wifi, prov, ble, ble.ssid, ble.psk
      ensures Model() == Retry(old(Model()), maxTries, lib, during)
    {
      hide Enter, NetMachine.Transition, BluetoothLE.Value;
      var again := CanRetry();
      if again {
        RestartState(lib, during);
      } else {
        Transition(PROVISIONING, lib, during);
      }
    }

    /** The states before a connection is attempted. */
    method ProcessBoot(evt: Event, lib: Lib, during: seq<Callback>)
      requires Valid() && (state == INITIALIZING || state == LOADING_CREDENTIALS)
      modifies this, queue, mqtt`isWifiConnected, wifi, prov, ble, ble.ssid, ble.psk
      ensures Model() == Process(old(Model()), evt, maxTries, lib, during)
    {
      hide Enter, NetMachine.Transition, Retry, BluetoothLE.Value;
      if state == INITIALIZING {
        if evt == START {
          OnEntry(lib, during);
        } else if evt == WIFI_IFACE_UP {
          Transition(LOADING_CREDENTIALS, lib, during);
        } else if evt == WIFI_IFACE_ERROR {
          Transition(IFACE_ERROR, lib, during);
        }
      } else {
        if evt == WIFI_CREDS_OK {
          Transition(CONNECTING, lib, during);
        } else if evt == WIFI_CREDS_FAIL {
          RestartState(lib, during);
        } else if evt == WIFI_CREDS_NOT_FOUND {
          Transition(PROVISIONING, lib, during);
        }
      }
    }

    /** The two states that wait, with a timeout, for the driver. */
    method ProcessHandshake(evt: Event, lib: Lib, during: seq<Callback>)
      requires Valid() && Handshake(state)
      modifies this, queue, mqtt`isWifiConnected, wifi, prov, ble, ble.ssid, ble.psk
      ensures Model() == Process(old(Model()), evt, maxTries, lib, during)
    {
      hide Enter, NetMachine.Transition, Retry, BluetoothLE.Value;
      if state == CONNECTING {
        if evt == WIFI_CONNECTED {
          Transition(WAITING_FOR_IP_ADDRESS, lib, during);
        } else if evt == TIMEOUT {
          RetryOrProvision(lib, during);
        }
      } else {
        if evt == WIFI_IP_ACQUIRED {
          Transition(CONNECTED, lib, during);
        } else if evt == TIMEOUT {
          RetryOrProvision(lib, during);
        } else if evt == WIFI_DISCONNECTED {
          wifi.StopConnectTimer();
          Transition(CONNECTING, lib, during);
        }
      }
    }

    method ProcessProvisioning(evt: Event, lib: Lib, during: seq<Callback>)
      requires Valid() && state == PROVISIONING
      modifies this, queue, mqtt`isWifiConnected, wifi, prov, ble, ble.ssid, ble.psk
      ensures Model() == Process(old(Model()), evt, maxTries, lib, during)
    {
      hide Enter, NetMachine.Transition, Retry, BluetoothLE.Value;
      if evt == PROVISIONING_CREDS_RECEIVED {
        Transition(STORING_CREDENTIALS, lib, during);
      } else if evt == PROVISIONING_STORE_CREDENTIALS_ERROR {
        RestartState(lib, during);
      }
    }

    method ProcessStoring(evt: Event, lib: Lib, during: seq<Callback>)
      requires Valid() && state == STORING_CREDENTIALS
      modifies this, queue, mqtt`isWifiConnected, wifi, prov, ble, ble.ssid, ble.psk
      ensures Model() == Process(old(Model()), evt, maxTries, lib, during)
    {
      hide Enter, NetMachine.Transition, Retry, BluetoothLE.Value;
      if evt == PROVISIONING_STORE_CREDENTIALS_OK {
        Transition(LOADING_CREDENTIALS, lib, during);
      } else if evt == PROVISIONING_STORE_CREDENTIALS_ERROR {
        Transition(PROVISIONING, lib, during);
      }
    }

    method ProcessState(evt: Event, lib: Lib, during: seq<Callback>)
      requires Valid()
      modifies this, queue, mqtt`isWifiConnected, wifi, prov, ble, ble.ssid, ble.psk
      ensures Model() == Process(old(Model()), evt, maxTries, lib, during)
    {
      hide Enter, NetMachine.Transition, Retry, BluetoothLE.Value;
      match state
      case INITIALIZING | LOADING_CREDENTIALS => ProcessBoot(evt, lib, during);
      case CONNECTING | WAITING_FOR_IP_ADDRESS => ProcessHandshake(evt, lib, during);
      case CONNECTED =>
        if evt == WIFI_DISCONNECTED {
          Transition(CONNECTING, lib, during);
        }
      case PROVISIONING => ProcessProvisioning(evt, lib, during);
      case STORING_CREDENTIALS => ProcessStoring(evt, lib, during);
      case IFACE_ERROR =>
    }

    /** One turn of `network_evt_dispatch_task`; delivery to the listeners is modelled with each listener. */
    method DispatchNext(lib: Lib, during: seq<Callback>)
      requires Valid()
      modifies this, queue, mqtt`isWifiConnected, wifi, prov, ble, ble.ssid, ble.psk
      ensures Model() == Handle(old(Model()), maxTries, lib, during)
    {
      hide Process, BluetoothLE.Value;
      if queue.q.msgs == [] {
        return;
      }
      var m := queue.Get();
      if m.group == WIFI_EVT || m.group == PROV_EVT {
        ProcessState(m.evt, lib, during);
      }
    }
  }
}
