/** What holds in every run of the connection manager. */
module NetProofs {
  import opened Types
  import opened Credentials
  import opened NetMachine

  // ---- callbacks touch neither the state machine nor its flags ----

  ghost predicate SameMachine(a: Net, b: Net) {
    && a.state == b.state && a.tries == b.tries && a.hasIface == b.hasIface && a.gate == b.gate
    && a.provOn == b.provOn && a.stores == b.stores
  }

  lemma CallbackKeepsMachine(n: Net, c: Callback)
    ensures SameMachine(n, OnCallback(n, c))
  {
    hide OnBleWrite;
    if c.BleWrite? {
      BleWriteKeepsMachine(n, c.half, c.data);
    }
  }

  lemma BleWriteKeepsMachine(n: Net, half: Half, data: seq<byte>)
    ensures SameMachine(n, OnBleWrite(n, half, data))
  {
    hide WriteHalf;
  }

  lemma {:induction false} CallbacksKeepMachine(n: Net, cs: seq<Callback>)
    ensures SameMachine(n, OnCallbacks(n, cs))
  {
    hide OnCallback;
    if cs != [] {
      CallbacksKeepMachine(n, cs[..|cs| - 1]);
      CallbackKeepsMachine(OnCallbacks(n, cs[..|cs| - 1]), cs[|cs| - 1]);
    }
  }

  // ---- retries and the gate ----

  /** The counter is below the maximum during a handshake and 0 elsewhere; MQTT may run exactly when CONNECTED. */
  ghost predicate Flags(n: Net, max: nat) {
    && (if Handshake(n.state) then n.tries < max else n.tries == 0)
    && (n.gate <==> n.state == CONNECTED)
    && (n.state == CONNECTED ==> !n.provOn)
  }

  lemma EnterKeepsMachine(n: Net, lib: Lib, during: seq<Callback>)
    ensures var m := Enter(n, lib, during);
            && m.state == n.state
            && m.tries == (if n.state == INITIALIZING then 0 else n.tries)
            && m.gate == (n.gate || n.state == CONNECTED)
            && (n.state == CONNECTED ==> !m.provOn)
  {
    CallbacksKeepMachine(n, during);
  }

  lemma TransitionMachine(n: Net, s: WifiState, lib: Lib, during: seq<Callback>)
    requires s != INITIALIZING && s != n.state
    ensures var m := Transition(n, s, lib, during);
            && m.state == s
            && m.tries == (if Handshake(n.state) then 0 else n.tries)
            && m.gate == ((n.gate && n.state != CONNECTED) || s == CONNECTED)
            && (s == CONNECTED ==> !m.provOn)
  {
    hide Enter;
    EnterKeepsMachine(n.(tries := if Handshake(n.state) && s != n.state then 0 else n.tries,
                         gate := n.gate && n.state != CONNECTED).(state := s), lib, during);
  }

  /** A timeout with tries to spare re-enters the state, the last one leads to provisioning. */
  lemma RetryMachine(n: Net, max: nat, lib: Lib, during: seq<Callback>)
    requires Handshake(n.state)
    ensures var m, t := Retry(n, max, lib, during), (n.tries + 1) % 0x100;
            && m.gate == n.gate
            && (if t < max then m.state == n.state && m.tries == t else m.state == PROVISIONING && m.tries == 0)
  {
    hide Enter, Transition;
    var t := (n.tries + 1) % 0x100;
    EnterKeepsMachine(n.(tries := t), lib, during);
    TransitionMachine(n.(tries := t), PROVISIONING, lib, during);
  }

  lemma TargetFacts(s: WifiState, e: Event)
    ensures Target(s, e) != s ==> Target(s, e) != INITIALIZING
    ensures Restarts(s, e) ==> s != CONNECTED
  {
  }

  lemma PlainTransition(n: Net, e: Event, max: nat, lib: Lib, during: seq<Callback>)
    requires !(Handshake(n.state) && e == TIMEOUT) && !Restarts(n.state, e) && Target(n.state, e) != n.state
    ensures var m := Process(n, e, max, lib, during);
            && m.state == Target(n.state, e)
            && m.tries == (if Handshake(n.state) then 0 else n.tries)
            && m.gate == ((n.gate && n.state != CONNECTED) || m.state == CONNECTED)
            && (m.state == CONNECTED ==> !m.provOn)
  {
    hide Enter, Transition, Retry, Target, Restarts;
    TargetFacts(n.state, e);
    TransitionMachine(n, Target(n.state, e), lib, during);
    TransitionMachine(n.(timer := false), Target(n.state, e), lib, during);
  }

  lemma ProcessKeepsFlags(n: Net, e: Event, max: nat, lib: Lib, during: seq<Callback>)
    requires Flags(n, max) && 1 <= max <= 0xFF
    ensures Flags(Process(n, e, max, lib, during), max)
  {
    hide Enter, Transition, Retry, Target, Restarts;
    TargetFacts(n.state, e);
    if Handshake(n.state) && e == TIMEOUT {
      RetryMachine(n, max, lib, during);
    } else if Restarts(n.state, e) {
      EnterKeepsMachine(n, lib, during);
    } else if Target(n.state, e) != n.state {
      PlainTransition(n, e, max, lib, during);
    }
  }

  lemma StepKeepsFlags(n: Net, l: Label, max: nat)
    requires Flags(n, max) && 1 <= max <= 0xFF
    ensures Flags(Step(n, l, max), max)
  {
    hide Process, OnCallback;
    match l
    case Call(c) => CallbackKeepsMachine(n, c);
    case Dispatch(lib, during) =>
      if n.queue.msgs != [] {
        ProcessKeepsFlags(n.(queue := n.queue.(msgs := n.queue.msgs[1..])), n.queue.msgs[0].evt, max, lib, during);
      }
  }

  lemma BootFlags(max: nat, boot: Lib)
    requires 1 <= max
    ensures Flags(Process(PowerUp(), START, max, boot, []), max)
  {
  }

  /** Between handled events, in every run: the gate is open iff CONNECTED, and CONNECTED means provisioning is off. */
  lemma {:induction false} FlagsAlways(tr: Trace, run: Run, max: nat, boot: Lib, k: nat)
    requires Behavior(tr, run, max, boot) && 1 <= max <= 0xFF
    ensures Flags(tr(k), max)
  {
    hide Step, Process, Flags;
    if k == 0 {
      BootFlags(max, boot);
    } else {
      FlagsAlways(tr, run, max, boot, k - 1);
      StepKeepsFlags(tr(k - 1), run(k - 1), max);
    }
  }

  /** The timeouts handled in the current stay in CONNECTING or WAITING_FOR_IP_ADDRESS. */
  ghost function Timeouts(tr: Trace, run: Run, k: nat): nat {
    if k == 0 || tr(k).state != tr(k - 1).state then 0
    else Timeouts(tr, run, k - 1) +
         (if Handshake(tr(k).state) && Handled(tr(k - 1), run(k - 1)) == [TIMEOUT] then 1 else 0)
  }

  /** What one event does to the retry counter. */
  ghost predicate Counts(n: Net, u: Net, timeout: bool, max: nat) {
    && (u.state != n.state ==> u.tries == 0)
    && (u.state == n.state && Handshake(n.state) ==> u.tries == n.tries + (if timeout then 1 else 0))
    && (Handshake(n.state) && timeout ==> u.state == if n.tries + 1 == max then PROVISIONING else n.state)
  }

  lemma ProcessCounts(n: Net, e: Event, max: nat, lib: Lib, during: seq<Callback>)
    requires Flags(n, max) && 1 <= max <= 0xFF
    ensures Counts(n, Process(n, e, max, lib, during), e == TIMEOUT, max)
  {
    hide Enter, Transition, Retry, Target, Restarts;
    TargetFacts(n.state, e);
    if Handshake(n.state) && e == TIMEOUT {
      RetryMachine(n, max, lib, during);
    } else if Restarts(n.state, e) {
      EnterKeepsMachine(n, lib, during);
    } else if Target(n.state, e) != n.state {
      PlainTransition(n, e, max, lib, during);
    }
  }

  lemma StepCounts(n: Net, l: Label, max: nat)
    requires Flags(n, max) && 1 <= max <= 0xFF
    ensures Counts(n, Step(n, l, max), Handled(n, l) == [TIMEOUT], max)
  {
    hide Process, OnCallback;
    match l
    case Call(c) => CallbackKeepsMachine(n, c);
    case Dispatch(lib, during) =>
      if n.queue.msgs != [] {
        ProcessCounts(n.(queue := n.queue.(msgs := n.queue.msgs[1..])), n.queue.msgs[0].evt, max, lib, during);
      }
  }

  /** In every run `tries` counts the timeouts of the current stay, stays below the maximum and is 0 elsewhere. */
  lemma {:induction false} TriesCountTimeouts(tr: Trace, run: Run, max: nat, boot: Lib, k: nat)
    requires Behavior(tr, run, max, boot) && 1 <= max <= 0xFF
    ensures if Handshake(tr(k).state) then tr(k).tries == Timeouts(tr, run, k) < max else tr(k).tries == 0
  {
    hide Step, Process;
    FlagsAlways(tr, run, max, boot, k);
    if k > 0 {
      TriesCountTimeouts(tr, run, max, boot, k - 1);
      FlagsAlways(tr, run, max, boot, k - 1);
      StepCounts(tr(k - 1), run(k - 1), max);
    } else {
      BootFlags(max, boot);
      assert tr(0).state == INITIALIZING by { BootState(max, boot); }
    }
  }

  lemma BootState(max: nat, boot: Lib)
    ensures Process(PowerUp(), START, max, boot, []).state == INITIALIZING
  {
  }

  /** A timeout of a stay gives up to provisioning exactly if it is the max-th. */
  lemma GivesUpAtMax(tr: Trace, run: Run, max: nat, boot: Lib, k: nat)
    requires Behavior(tr, run, max, boot) && 1 <= max <= 0xFF
    requires Handshake(tr(k).state) && Handled(tr(k), run(k)) == [TIMEOUT]
    ensures tr(k + 1).state == PROVISIONING <==> Timeouts(tr, run, k) + 1 == max
    ensures tr(k + 1).state != PROVISIONING ==> tr(k + 1).state == tr(k).state
  {
    hide Step;
    TriesCountTimeouts(tr, run, max, boot, k);
    FlagsAlways(tr, run, max, boot, k);
    StepCounts(tr(k), run(k), max);
  }

  /** A stay of k timeouts and nothing else. */
  ghost function Stay(n: Net, max: nat, lib: Lib, k: nat): Net {
    if k == 0 then n else Process(Stay(n, max, lib, k - 1), TIMEOUT, max, lib, [])
  }

  lemma {:induction false} StayCounts(n: Net, max: nat, lib: Lib, k: nat)
    requires Handshake(n.state) && n.tries == 0 && (k < max || 0x100 <= max)
    ensures Stay(n, max, lib, k).state == n.state && Stay(n, max, lib, k).tries == k % 0x100
  {
    hide Retry;
    if k > 0 {
      StayCounts(n, max, lib, k - 1);
      RetryMachine(Stay(n, max, lib, k - 1), max, lib, []);
    }
  }

  /** Repeated timeouts end in provisioning exactly if the configured maximum fits the 8-bit counter. */
  lemma GivesUpIff(n: Net, max: nat, lib: Lib)
    requires Handshake(n.state) && n.tries == 0 && 1 <= max
    ensures (exists k: nat :: Stay(n, max, lib, k).state == PROVISIONING) <==> max <= 0xFF
  {
    hide Retry;
    if max <= 0xFF {
      StayCounts(n, max, lib, max - 1);
      RetryMachine(Stay(n, max, lib, max - 1), max, lib, []);
      assert Stay(n, max, lib, max).state == PROVISIONING;
    } else {
      forall k: nat ensures Stay(n, max, lib, k).state != PROVISIONING {
        StayCounts(n, max, lib, k);
      }
    }
  }

  // ---- history ----

  /** The events handled since CONNECTING was last entered. */
  ghost function Since(tr: Trace, run: Run, k: nat): seq<Event> {
    if k == 0 then []
    else
      var e := Handled(tr(k - 1), run(k - 1));
      if tr(k).state == CONNECTING && (tr(k - 1).state != CONNECTING || e == [TIMEOUT]) then []
      else Since(tr, run, k - 1) + e
  }

  /** WIFI_CONNECTED was handled and WIFI_DISCONNECTED not since. */
  ghost predicate LinkUp(h: seq<Event>) {
    exists i :: 0 <= i < |h| && h[i] == WIFI_CONNECTED && WIFI_DISCONNECTED !in h[i..]
  }

  /** First WIFI_CONNECTED, then WIFI_IP_ACQUIRED, and WIFI_DISCONNECTED neither between nor after. */
  ghost predicate Online(h: seq<Event>) {
    exists i, j ::
      0 <= i < j < |h| && h[i] == WIFI_CONNECTED && h[j] == WIFI_IP_ACQUIRED && WIFI_DISCONNECTED !in h[i..]
  }

  ghost predicate Explained(s: WifiState, h: seq<Event>) {
    && (s == WAITING_FOR_IP_ADDRESS ==> LinkUp(h))
    && (s == CONNECTED ==> Online(h))
  }

  /** Which states an event can lead to. */
  lemma Moves(n: Net, l: Label, max: nat)
    ensures var u, e := Step(n, l, max).state, Handled(n, l);
            && (u == WAITING_FOR_IP_ADDRESS && n.state != u ==> n.state == CONNECTING && e == [WIFI_CONNECTED])
            && (u == CONNECTED && n.state != u ==> n.state == WAITING_FOR_IP_ADDRESS && e == [WIFI_IP_ACQUIRED])
            && (u == n.state && Handshake(u) && u != CONNECTING ==> e != [WIFI_DISCONNECTED])
            && (u == n.state == CONNECTED ==> e != [WIFI_DISCONNECTED])
            && |e| <= 1
  {
    hide Process, OnCallback;
    match l
    case Call(c) => CallbackKeepsMachine(n, c);
    case Dispatch(lib, during) =>
      if n.queue.msgs != [] {
        ProcessMoves(n.(queue := n.queue.(msgs := n.queue.msgs[1..])), n.queue.msgs[0].evt, max, lib, during);
      }
  }

  lemma ProcessMoves(n: Net, e: Event, max: nat, lib: Lib, during: seq<Callback>)
    ensures Process(n, e, max, lib, during).state ==
            if Handshake(n.state) && e == TIMEOUT then (if (n.tries + 1) % 0x100 < max then n.state else PROVISIONING)
            else if Restarts(n.state, e) then n.state
            else Target(n.state, e)
  {
    hide Enter, Transition, Retry, Target, Restarts;
    if Handshake(n.state) && e == TIMEOUT {
      RetryMachine(n, max, lib, during);
    } else if Restarts(n.state, e) {
      EnterKeepsMachine(n, lib, during);
    } else if Target(n.state, e) != n.state {
      PlainTransition(n, e, max, lib, during);
    }
  }

  lemma LinkUpStays(h: seq<Event>, e: seq<Event>)
    requires LinkUp(h) && WIFI_DISCONNECTED !in e
    ensures LinkUp(h + e)
  {
    var i :| 0 <= i < |h| && h[i] == WIFI_CONNECTED && WIFI_DISCONNECTED !in h[i..];
    assert (h + e)[i..] == h[i..] + e && (h + e)[i] == WIFI_CONNECTED;
  }

  lemma OnlineStays(h: seq<Event>, e: seq<Event>)
    requires Online(h) && WIFI_DISCONNECTED !in e
    ensures Online(h + e)
  {
    var i, j :| 0 <= i < j < |h| && h[i] == WIFI_CONNECTED && h[j] == WIFI_IP_ACQUIRED && WIFI_DISCONNECTED !in h[i..];
    assert (h + e)[i..] == h[i..] + e && (h + e)[i] == WIFI_CONNECTED && (h + e)[j] == WIFI_IP_ACQUIRED;
  }

  lemma GoesOnline(h: seq<Event>)
    requires LinkUp(h)
    ensures Online(h + [WIFI_IP_ACQUIRED])
  {
    var i :| 0 <= i < |h| && h[i] == WIFI_CONNECTED && WIFI_DISCONNECTED !in h[i..];
    var g := h + [WIFI_IP_ACQUIRED];
    assert g[i..] == h[i..] + [WIFI_IP_ACQUIRED] && g[i] == WIFI_CONNECTED && g[|h|] == WIFI_IP_ACQUIRED;
  }

  lemma ExplainStep(s: WifiState, h: seq<Event>, u: WifiState, e: seq<Event>)
    requires Explained(s, h) && |e| <= 1
    requires u == WAITING_FOR_IP_ADDRESS && s != u ==> e == [WIFI_CONNECTED]
    requires u == CONNECTED && s != u ==> s == WAITING_FOR_IP_ADDRESS && e == [WIFI_IP_ACQUIRED]
    requires u == s && (u == CONNECTED || u == WAITING_FOR_IP_ADDRESS) ==> e != [WIFI_DISCONNECTED]
    ensures Explained(u, h + e)
  {
    if u == WAITING_FOR_IP_ADDRESS {
      if s == u {
        LinkUpStays(h, e);
      } else {
        var g := h + e;
        assert g[|h|] == WIFI_CONNECTED && g[|h|..] == e;
      }
    } else if u == CONNECTED {
      if s == u {
        OnlineStays(h, e);
      } else {
        GoesOnline(h);
      }
    }
  }

  /**
   In every run CONNECTED means that since CONNECTING was last entered WIFI_CONNECTED and then WIFI_IP_ACQUIRED were
   handled, with no WIFI_DISCONNECTED between or after.
   */
  lemma {:induction false} ConnectedIsExplained(tr: Trace, run: Run, max: nat, boot: Lib, k: nat)
    requires Behavior(tr, run, max, boot)
    ensures Explained(tr(k).state, Since(tr, run, k))
  {
    hide Step, Process, Explained, Handled;
    if k == 0 {
      BootState(max, boot);
      assert Explained(INITIALIZING, []) by { NothingToExplain(INITIALIZING, []); }
    } else {
      ConnectedIsExplained(tr, run, max, boot, k - 1);
      Moves(tr(k - 1), run(k - 1), max);
      if tr(k).state == CONNECTING {
        NothingToExplain(CONNECTING, Since(tr, run, k));
      } else {
        ExplainStep(tr(k - 1).state, Since(tr, run, k - 1), tr(k).state, Handled(tr(k - 1), run(k - 1)));
      }
    }
  }

  lemma NothingToExplain(s: WifiState, h: seq<Event>)
    requires s != WAITING_FOR_IP_ADDRESS && s != CONNECTED
    ensures Explained(s, h)
  {
  }
}
