/** Where each state of the MQTT thread leads, decided by what the library answers, and what the gate does. */
module SessionSteps {
  import opened Types
  import opened SessionMachine
  import opened SessionProofs

  // ---- every arc ----

  /** The next state of the thread is decided by the answers, the session flag and the gate. */
  lemma ArcsIff(s: Session, lib: Lib)
    ensures var u := Turn(s, lib).state;
            match s.state
            case INIT => u == CLIENT_READY
            case CLIENT_READY => u == if lib.brokerSet then BROKER_READY else CLIENT_READY
            case BROKER_READY => u == if lib.connectRet == 0 then CONNECTING else BROKER_READY
            case CONNECTING =>
              && (u == RUNNING <==> s.connected && lib.subscribeRet >= 0)
              && (u == ERROR <==> s.connected && lib.subscribeRet < 0)
              && (u == CONNECTING <==> !s.connected)
            case RUNNING => u == if !s.connected || SocketClosed(lib) then ERROR else RUNNING
            case ERROR => u == if s.gate then CLIENT_READY else ERROR
  {
    hide HandleAll;
    HandleAllKeepsState(s, lib.subscribing);
    HandleAllKeepsState(s, lib.input);
    HandleAllKeepsState(s, lib.live);
    var called := s.(connected := false, trace := s.trace + [Connects]);
    HandleAllKeepsState(called, lib.connecting);
    HandleAllKeepsState(HandleAll(called, lib.connecting), lib.connackInput);
    var t := ReadPayload(s, lib).1;
    HandleAllKeepsState(t.(trace := t.trace + [Publishes]), lib.publishing);
  }

  /** Only a turn of the thread changes its state. */
  lemma OthersKeepState(s: Session, h: Happening)
    ensures Step(s, Meanwhile(h)).state == s.state
  {
    HandleKeepsState(s, h);
  }

  /** In every run RUNNING is entered exactly by a turn in CONNECTING, with a session, whose subscribe succeeds. */
  lemma EntersRunningIff(tr: Trace, run: Run, k: nat)
    requires Behavior(tr, run)
    ensures tr(k).state != RUNNING && tr(k + 1).state == RUNNING <==>
            tr(k).state == CONNECTING && run(k).Runs? && tr(k).connected && run(k).lib.subscribeRet >= 0
  {
    hide Turn, Handle;
    assert tr(k + 1) == Step(tr(k), run(k));
    match run(k)
    case Runs(lib) => ArcsIff(tr(k), lib);
    case Meanwhile(h) => OthersKeepState(tr(k), h);
  }

  /** In every run RUNNING is left exactly by a turn that finds the session gone or the socket closed. */
  lemma LeavesRunningIff(tr: Trace, run: Run, k: nat)
    requires Behavior(tr, run) && tr(k).state == RUNNING
    ensures tr(k + 1).state != RUNNING <==> run(k).Runs? && (!tr(k).connected || SocketClosed(run(k).lib))
    ensures tr(k + 1).state != RUNNING ==> tr(k + 1).state == ERROR
  {
    hide Turn, Handle;
    assert tr(k + 1) == Step(tr(k), run(k));
    match run(k)
    case Runs(lib) => ArcsIff(tr(k), lib);
    case Meanwhile(h) => OthersKeepState(tr(k), h);
  }

  // ---- entries in the history ----

  /** The entry to RUNNING in the history was made by a step whose subscribe succeeded. */
  ghost predicate EnteredBy(tr: Trace, run: Run, j: nat, e: nat) {
    && |tr(j).trace| <= e < |tr(j + 1).trace|
    && tr(j).state == CONNECTING && tr(j).connected && run(j).Runs? && run(j).lib.subscribeRet >= 0
    && tr(j + 1).state == RUNNING
  }

  lemma TraceGrows(tr: Trace, run: Run, k: nat)
    requires Behavior(tr, run)
    ensures tr(k).trace <= tr(k + 1).trace
  {
    hide Turn, Handle;
    assert tr(k + 1) == Step(tr(k), run(k));
    match run(k)
    case Runs(lib) => var before, after := TurnActs(tr(k), lib);
    case Meanwhile(h) => HandleKeepsState(tr(k), h);
  }

  /** A turn writes an entry to RUNNING only when it makes one. */
  lemma TurnWritesEntry(s: Session, lib: Lib, e: nat)
    requires |s.trace| <= e < |Turn(s, lib).trace| && Turn(s, lib).trace[e] == EntersRunning
    ensures s.state == CONNECTING && s.connected && lib.subscribeRet >= 0 && Turn(s, lib).state == RUNNING
  {
    hide HandleAll;
    ArcsIff(s, lib);
    match s.state
    case BROKER_READY =>
      var called := s.(connected := false, trace := s.trace + [Connects]);
      var first := HandleAllActs(called, lib.connecting);
      var more := HandleAllActs(HandleAll(called, lib.connecting), lib.connackInput);
    case CONNECTING =>
      var acts := HandleAllActs(s, lib.subscribing);
    case RUNNING =>
      var live := HandleAllActs(s, lib.live);
      var input := HandleAllActs(s, lib.input);
      var t := ReadPayload(s, lib).1;
      var published := HandleAllActs(t.(trace := t.trace + [Publishes]), lib.publishing);
    case _ =>
  }

  lemma {:induction false} EntryStep(tr: Trace, run: Run, k: nat, e: nat) returns (j: nat)
    requires Behavior(tr, run) && e < |tr(k).trace| && tr(k).trace[e] == EntersRunning
    ensures j < k && EnteredBy(tr, run, j, e)
  {
    hide Turn, Handle;
    assert k > 0;
    TraceGrows(tr, run, k - 1);
    if e < |tr(k - 1).trace| {
      j := EntryStep(tr, run, k - 1, e);
    } else {
      j := k - 1;
      assert tr(k - 1 + 1) == Step(tr(k - 1), run(k - 1));
      match run(k - 1)
      case Runs(lib) => TurnWritesEntry(tr(k - 1), lib, e);
      case Meanwhile(h) => HandleKeepsState(tr(k - 1), h);
    }
  }

  /**
   In every run each entry to RUNNING in the history was made by a turn in CONNECTING whose `mqtt_subscribe` returned no
   error, and since the latest `connect` a successful CONNACK had come (sections 3.8 and 3.2 of MQTT 3.1.1).
   */
  lemma RunningIsEarned(tr: Trace, run: Run, k: nat, e: nat) returns (j: nat)
    requires Behavior(tr, run) && e < |tr(k).trace| && tr(k).trace[e] == EntersRunning
    ensures j < k && EnteredBy(tr, run, j, e) && Justified(tr(k).trace, e)
  {
    j := EntryStep(tr, run, k, e);
    RunningIsJustified(tr, run, k, e);
  }

  // ---- the gate ----

  /** While the gate is closed an ERROR stays, and no connection is tried. */
  lemma {:induction false} BlockedWhileGateClosed(tr: Trace, run: Run, k: nat, m: nat)
    requires Behavior(tr, run) && k <= m && tr(k).state == ERROR
    requires forall j: nat :: k <= j < m ==> !tr(j).gate
    ensures tr(m).state == ERROR && tr(m).trace == tr(k).trace
    decreases m - k
  {
    hide Handle;
    if k < m {
      BlockedWhileGateClosed(tr, run, k, m - 1);
      assert tr(m - 1 + 1) == Step(tr(m - 1), run(m - 1));
      if run(m - 1).Meanwhile? && OfOtherThreads(run(m - 1).h) {
        HandleKeepsState(tr(m - 1), run(m - 1).h);
      }
    }
  }

  // ---- it gets running ----

  /** A turn in which everything works and nothing else happens; the CONNACK is read by `connect`. */
  predicate Good(lib: Lib) {
    && lib.brokerSet && lib.connectRet == 0 && lib.connecting == []
    && lib.connackPoll > 0 && lib.connackInput == [Connack(0)]
    && lib.subscribeRet >= 0 && lib.subscribing == []
  }

  lemma OneConnack(s: Session)
    ensures HandleAll(s, []) == s
    ensures HandleAll(s, [Connack(0)]) == Handle(s, Connack(0))
  {
    assert [Connack(0)][..0] == [];
  }

  /** From ERROR with the gate open, four good turns bring the thread back to RUNNING with a session. */
  lemma RecoversInFourTurns(s: Session, a: Lib, b: Lib, c: Lib, d: Lib)
    requires s.state == ERROR && s.gate && Good(b) && Good(c) && Good(d)
    ensures var u := Turn(Turn(Turn(Turn(s, a), b), c), d); u.state == RUNNING && u.connected
  {
    hide HandleAll;
    var ready := Turn(Turn(s, a), b);
    var called := ready.(connected := false, trace := ready.trace + [Connects]);
    OneConnack(called);
    OneConnack(Turn(ready, c));
  }

  /** And from its start in four turns, whatever the gate. */
  lemma StartsInFourTurns(s: Session, a: Lib, b: Lib, c: Lib, d: Lib)
    requires s.state == INIT && Good(b) && Good(c) && Good(d)
    ensures var u := Turn(Turn(Turn(Turn(s, a), b), c), d); u.state == RUNNING && u.connected
  {
    hide HandleAll;
    var ready := Turn(Turn(s, a), b);
    var called := ready.(connected := false, trace := ready.trace + [Connects]);
    OneConnack(called);
    OneConnack(Turn(ready, c));
  }

  /** A `connect` whose poll ends without an event leaves the CONNACK unread, and the thread waits for ever. */
  lemma SlowConnackIsMissed(tr: Trace, run: Run, k: nat, later: nat)
    requires Behavior(tr, run) && tr(k).state == BROKER_READY && run(k).Runs? && k < later
    requires run(k).lib.connectRet == 0 && run(k).lib.connecting == [] && run(k).lib.connackPoll <= 0
    ensures tr(later).state == CONNECTING && !tr(later).connected
  {
    assert tr(k + 1) == Step(tr(k), run(k));
    MissedConnackIsForever(tr, run, k + 1, later);
  }

  /** A RUNNING turn handles what its poll announces: input, or the keep-alive on a timeout, and nothing otherwise. */
  lemma ReadsWhatThePollSays(s: Session, lib: Lib)
    requires s.state == RUNNING && s.connected && !lib.hasData
    ensures lib.poll != 0 && lib.pollIn && lib.input == [Disconnect] ==> !Turn(s, lib).connected
    ensures lib.poll == 0 && lib.live == [Disconnect] ==> !Turn(s, lib).connected
    ensures lib.poll != 0 && !lib.pollIn ==> Turn(s, lib) == s
    ensures lib.poll == 0 && lib.live == [] && lib.liveRet != -ENOTCONN ==> Turn(s, lib) == s
  {
    assert [Disconnect][..0] == [];
  }

  /** Block and release set the gate, and nothing else; a message of another component is queued behind the others. */
  lemma OthersAct(s: Session, open: bool, m: Msg)
    ensures Step(s, Meanwhile(Gate(open))) == s.(gate := open)
    ensures IsForeign(m) ==> Step(s, Meanwhile(Foreign(m))) == s.(queue := s.queue.Put(m))
  {
  }

  /** What a publish on the topics of the device queues. */
  lemma NoticesQueue(s: Session)
    ensures Handle(s, Publish(UpdateData)) == s.(queue := s.queue.Put(Msg(MQTT_UPDATE_DATA, MQTT_EVT)))
    ensures Handle(s, Publish(FeedNow)) == s.(queue := s.queue.Put(Msg(MQTT_FEED_NOW, MQTT_EVT)))
    ensures Handle(s, Publish(Nothing)) == s
  {
  }
}
