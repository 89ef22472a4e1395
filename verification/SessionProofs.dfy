/** What holds in every run of the MQTT thread. */
module SessionProofs {
  import opened Types
  import opened SessionMachine

  // ---- the sensor flag ----

  /** The sensor flag once every queued message has been delivered. */
  function Replay(flag: bool, msgs: seq<Msg>): bool {
    if msgs == [] then flag else Deliver(Replay(flag, msgs[..|msgs| - 1]), msgs[|msgs| - 1])
  }

  /** The last CONNACK or DISCONNECT handled was a CONNACK. */
  function Announced(t: seq<Act>): bool {
    if t == [] then false
    else
      var last := t[|t| - 1];
      if last == Acked then true else if last == Dropped then false else Announced(t[..|t| - 1])
  }

  /** ... and `connect` was not called since. */
  function Live(t: seq<Act>): bool {
    if t == [] then false
    else
      var last := t[|t| - 1];
      if last == Acked then true else if last == Dropped || last == Connects then false else Live(t[..|t| - 1])
  }

  /** The flag will follow what was announced, and the session flag is exactly a live session. */
  predicate Follows(s: Session) {
    && (s.queue.dropped || Replay(s.sensor, s.queue.msgs) == Announced(s.trace))
    && s.connected == Live(s.trace)
  }

  lemma {:induction false} ReplayFront(flag: bool, msgs: seq<Msg>)
    requires msgs != []
    ensures Replay(flag, msgs) == Replay(Deliver(flag, msgs[0]), msgs[1..])
  {
    if |msgs| > 1 {
      ReplayFront(flag, msgs[..|msgs| - 1]);
      assert msgs[1..][..|msgs| - 2] == msgs[..|msgs| - 1][1..];
    } else {
      assert msgs[..0] == [] && msgs[1..] == [];
    }
  }

  lemma ReplayPut(flag: bool, q: Queue, m: Msg)
    ensures q.Put(m).dropped || Replay(flag, q.Put(m).msgs) == Deliver(Replay(flag, q.msgs), m)
    ensures q.dropped ==> q.Put(m).dropped
  {
    if |q.msgs| < QUEUE_DEPTH {
      assert (q.msgs + [m])[..|q.msgs|] == q.msgs;
    }
  }

  lemma Extend(t: seq<Act>, a: Act)
    ensures (t + [a])[..|t|] == t
    ensures Announced(t + [a]) == if a == Acked then true else if a == Dropped then false else Announced(t)
    ensures Live(t + [a]) == if a == Acked then true else if a == Dropped || a == Connects then false else Live(t)
  {
    assert (t + [a])[..|t + [a]| - 1] == t;
  }

  /** Only a message announcing a session moves the sensor flag. */
  lemma DeliverFacts(flag: bool, e: Event)
    ensures Deliver(flag, Msg(e, MQTT_EVT)) == SensorUpdate(flag, e)
    ensures forall m: Msg :: IsForeign(m) ==> Deliver(flag, m) == flag
  {
  }

  lemma HandleFollows(s: Session, h: Happening)
    requires Follows(s)
    ensures Follows(Handle(s, h))
  {
    hide Deliver, Replay, Announced, Live;
    match h
    case Connack(_) =>
      ReplayPut(s.sensor, s.queue, Msg(MQTT_CONNECTED, MQTT_EVT));
      Extend(s.trace, Acked);
      DeliverFacts(Replay(s.sensor, s.queue.msgs), MQTT_CONNECTED);
    case Disconnect =>
      ReplayPut(s.sensor, s.queue, Msg(MQTT_DISCONNECTED, MQTT_EVT));
      Extend(s.trace, Dropped);
      DeliverFacts(Replay(s.sensor, s.queue.msgs), MQTT_DISCONNECTED);
    case Publish(notice) =>
      var e := if notice.UpdateData? then MQTT_UPDATE_DATA else MQTT_FEED_NOW;
      ReplayPut(s.sensor, s.queue, Msg(e, MQTT_EVT));
      DeliverFacts(Replay(s.sensor, s.queue.msgs), e);
    case Foreign(m) =>
      ReplayPut(s.sensor, s.queue, m);
      DeliverFacts(Replay(s.sensor, s.queue.msgs), m.evt);
    case Dispatches =>
      if s.queue.msgs != [] {
        ReplayFront(s.sensor, s.queue.msgs);
      }
    case _ =>
  }

  lemma {:induction false} HandleAllFollows(s: Session, hs: seq<Happening>)
    requires Follows(s)
    ensures Follows(HandleAll(s, hs))
  {
    hide Handle, Follows;
    if hs != [] {
      HandleAllFollows(s, hs[..|hs| - 1]);
      HandleFollows(HandleAll(s, hs[..|hs| - 1]), hs[|hs| - 1]);
    }
  }

  /** An act that is neither an acknowledgement nor a disconnect, nor a connect of a connected session. */
  lemma ActFollows(s: Session, a: Act, state: MqttState)
    requires Follows(s) && a != Acked && a != Dropped && a != Connects
    ensures Follows(s.(trace := s.trace + [a], state := state)) && Follows(s.(state := state))
    ensures Follows(s.(connected := false, trace := s.trace + [Connects]))
  {
    hide Replay, Announced, Live;
    Extend(s.trace, a);
    Extend(s.trace, Connects);
  }

  lemma TurnFollows(s: Session, lib: Lib)
    requires Follows(s)
    ensures Follows(Turn(s, lib))
  {
    hide Follows, HandleAll;
    forall state ensures Follows(s.(state := state)) { ActFollows(s, Subscribed, state); }
    match s.state
    case BROKER_READY =>
      ActFollows(s, Subscribed, s.state);
      var called := s.(connected := false, trace := s.trace + [Connects]);
      HandleAllFollows(called, lib.connecting);
      HandleAllFollows(HandleAll(called, lib.connecting), lib.connackInput);
      ActFollows(Connect(s, lib).1, Subscribed, CONNECTING);
    case CONNECTING =>
      HandleAllFollows(s, lib.subscribing);
      var t := HandleAll(s, lib.subscribing);
      ActFollows(t, Subscribed, RUNNING);
      ActFollows(t, Subscribed, ERROR);
      ActFollows(t.(trace := t.trace + [Subscribed], state := RUNNING), EntersRunning, RUNNING);
      assert t.trace + [Subscribed] + [EntersRunning] == t.trace + [Subscribed, EntersRunning];
    case RUNNING =>
      ActFollows(s, LeavesRunning, ERROR);
      HandleAllFollows(s, lib.live);
      HandleAllFollows(s, lib.input);
      var t := ReadPayload(s, lib).1;
      ActFollows(t, LeavesRunning, ERROR);
      ActFollows(t, Publishes, t.state);
      HandleAllFollows(t.(trace := t.trace + [Publishes]), lib.publishing);
    case _ =>
  }

  lemma {:induction false} FollowsAlways(tr: Trace, run: Run, k: nat)
    requires Behavior(tr, run)
    ensures Follows(tr(k))
  {
    hide Turn, Handle;
    if k > 0 {
      hide Follows;
      FollowsAlways(tr, run, k - 1);
      match run(k - 1) {
        case Runs(lib) => TurnFollows(tr(k - 1), lib);
        case Meanwhile(h) => HandleFollows(tr(k - 1), h);
      }
    }
  }

  lemma {:induction false} LiveIsAnnounced(t: seq<Act>)
    ensures Live(t) ==> Announced(t)
  {
    if t != [] {
      LiveIsAnnounced(t[..|t| - 1]);
    }
  }

  /**
   In every interleaving without drops the queued events, replayed into the sensor, turn it on whenever the session is
   connected; with an empty queue a connected session implies a sending sensor.
   */
  lemma SensorFollowsSession(tr: Trace, run: Run, k: nat)
    requires Behavior(tr, run) && !tr(k).queue.dropped
    ensures tr(k).connected ==> Replay(tr(k).sensor, tr(k).queue.msgs)
    ensures tr(k).queue.msgs == [] && tr(k).connected ==> tr(k).sensor
  {
    FollowsAlways(tr, run, k);
    LiveIsAnnounced(tr(k).trace);
  }

  /** The sensor keeps sending without a session exactly if `connect` was called again without a DISCONNECT event. */
  lemma SensorOutlivesSessionIff(tr: Trace, run: Run, k: nat)
    requires Behavior(tr, run) && !tr(k).queue.dropped && tr(k).queue.msgs == []
    ensures tr(k).sensor && !tr(k).connected <==> Announced(tr(k).trace) && !Live(tr(k).trace)
  {
    FollowsAlways(tr, run, k);
  }

  /** Messages of group WIFI_EVT reach no listener, whatever it was attached with: the group code is 0. */
  lemma WifiEventsReachNobody(mask: bv8)
    ensures !Reaches(mask, WIFI_EVT)
  {
  }

  // ---- the order of a session ----

  /** Handler events append only acknowledgements and disconnects. */
  ghost predicate OnlyPackets(acts: seq<Act>) {
    forall i :: 0 <= i < |acts| ==> acts[i] == Acked || acts[i] == Dropped
  }

  lemma {:induction false} HandleAllActs(s: Session, hs: seq<Happening>) returns (acts: seq<Act>)
    ensures HandleAll(s, hs).trace == s.trace + acts && OnlyPackets(acts) && HandleAll(s, hs).state == s.state
  {
    hide Handle;
    if hs == [] {
      acts := [];
    } else {
      var front := HandleAllActs(s, hs[..|hs| - 1]);
      var h := hs[|hs| - 1];
      acts := front + (if h.Connack? && h.result == 0 then [Acked] else if h.Disconnect? then [Dropped] else []);
      HandleOneAct(HandleAll(s, hs[..|hs| - 1]), h);
    }
  }

  lemma HandleOneAct(s: Session, h: Happening)
    ensures Handle(s, h).state == s.state
    ensures Handle(s, h).trace ==
            s.trace + (if h.Connack? && h.result == 0 then [Acked] else if h.Disconnect? then [Dropped] else [])
  {
    hide Deliver;
  }

  /** Entry e to RUNNING: just after a successful subscribe, and after a CONNACK to the latest `connect`. */
  ghost predicate Justified(t: seq<Act>, e: nat)
    requires e < |t|
  {
    exists a: nat :: a + 1 < e && t[a] == Acked && t[e - 1] == Subscribed
                     && Connects in t[..a] && Connects !in t[a + 1..e]
  }

  ghost predicate Ordered(t: seq<Act>) {
    && (t != [] ==> t[0] == Connects)
    && forall e :: 0 <= e < |t| && t[e] == EntersRunning ==> Justified(t, e)
  }

  lemma OrderedExtends(t: seq<Act>, acts: seq<Act>)
    requires Ordered(t) && (t == [] ==> acts == [] || acts[0] == Connects) && EntersRunning !in acts
    ensures Ordered(t + acts)
  {
    var u := t + acts;
    forall e | 0 <= e < |u| && u[e] == EntersRunning ensures Justified(u, e) {
      var a: nat :| a + 1 < e && t[a] == Acked && t[e - 1] == Subscribed
                    && Connects in t[..a] && Connects !in t[a + 1..e];
      assert u[..a] == t[..a] && u[a + 1..e] == t[a + 1..e] && u[a] == Acked;
    }
  }

  lemma {:induction false} LiveHasAck(t: seq<Act>) returns (a: nat)
    requires Live(t)
    ensures a < |t| && t[a] == Acked && Connects !in t[a + 1..]
  {
    if t[|t| - 1] == Acked {
      a := |t| - 1;
    } else {
      a := LiveHasAck(t[..|t| - 1]);
      assert t[a + 1..] == t[..|t| - 1][a + 1..] + [t[|t| - 1]];
    }
  }

  lemma EntryIsJustified(t: seq<Act>, acts: seq<Act>)
    requires Ordered(t) && Live(t) && OnlyPackets(acts)
    ensures Ordered(t + acts + [Subscribed, EntersRunning])
  {
    var a := LiveHasAck(t);
    assert a > 0 by {
      assert t[0] == Connects;
    }
    var v := t + (acts + [Subscribed]);
    OrderedExtends(t, acts + [Subscribed]);
    assert v[..a][0] == Connects && v[a] == Acked && v[|v| - 1] == Subscribed;
    assert v[a + 1..] == t[a + 1..] + acts + [Subscribed];
    OrderedEnters(v, a);
    assert v + [EntersRunning] == t + acts + [Subscribed, EntersRunning];
  }

  /** Ack `a` justifies entering RUNNING now. */
  lemma OrderedEnters(v: seq<Act>, a: nat)
    requires Ordered(v) && a + 1 < |v| && v[a] == Acked && v[|v| - 1] == Subscribed
    requires Connects in v[..a] && Connects !in v[a + 1..]
    ensures Ordered(v + [EntersRunning])
  {
    var u := v + [EntersRunning];
    forall d | 0 <= d < |u| && u[d] == EntersRunning ensures Justified(u, d) {
      var b: nat := a;
      if d < |v| {
        b :| b + 1 < d && v[b] == Acked && v[d - 1] == Subscribed
             && Connects in v[..b] && Connects !in v[b + 1..d];
      }
      assert u[..b] == v[..b] && u[b + 1..d] == v[b + 1..d] && u[b] == Acked;
    }
  }

  ghost predicate InOrder(s: Session) {
    && Ordered(s.trace) && Follows(s)
    && (s.state == CONNECTING || s.state == RUNNING ==> s.trace != [])
  }

  lemma TurnKeepsOrder(s: Session, lib: Lib)
    requires InOrder(s)
    ensures InOrder(Turn(s, lib))
  {
    hide Ordered, Follows, HandleAll;
    TurnFollows(s, lib);
    match s.state
    case BROKER_READY =>
      var called := s.(connected := false, trace := s.trace + [Connects]);
      OrderedExtends(s.trace, [Connects]);
      var acts := HandleAllActs(called, lib.connecting);
      OrderedExtends(called.trace, acts);
      var t := HandleAll(called, lib.connecting);
      var more := HandleAllActs(t, lib.connackInput);
      OrderedExtends(t.trace, more);
    case CONNECTING =>
      var acts := HandleAllActs(s, lib.subscribing);
      OrderedExtends(s.trace, acts);
      if s.connected {
        assert Live(s.trace) by { ConnectedIsLive(s); }
        EntryIsJustified(s.trace, acts);
      }
    case RUNNING =>
      OrderedExtends(s.trace, [LeavesRunning]);
      var live := HandleAllActs(s, lib.live);
      OrderedExtends(s.trace, live);
      var input := HandleAllActs(s, lib.input);
      OrderedExtends(s.trace, input);
      var t := ReadPayload(s, lib).1;
      OrderedExtends(t.trace, [LeavesRunning]);
      OrderedExtends(t.trace, [Publishes]);
      var p := t.(trace := t.trace + [Publishes]);
      var published := HandleAllActs(p, lib.publishing);
      OrderedExtends(p.trace, published);
    case _ =>
  }

  lemma ConnectedIsLive(s: Session)
    requires Follows(s)
    ensures s.connected == Live(s.trace)
  {
  }

  lemma {:induction false} InOrderAlways(tr: Trace, run: Run, k: nat)
    requires Behavior(tr, run)
    ensures InOrder(tr(k))
  {
    hide Turn, Handle, Ordered, Follows;
    FollowsAlways(tr, run, k);
    if k == 0 {
      assert Ordered([]) by { NothingOrdered(); }
    } else {
      InOrderAlways(tr, run, k - 1);
      match run(k - 1) {
        case Runs(lib) => TurnKeepsOrder(tr(k - 1), lib);
        case Meanwhile(h) => HandleOneAct(tr(k - 1), h); assert tr(k - 1).trace + [] == tr(k - 1).trace;
      }
    }
  }

  lemma NothingOrdered()
    ensures Ordered([])
  {
  }

  /**
   In every run each entry to RUNNING comes right after a subscribe and, since the latest `connect`, after a
   successful CONNACK (sections 3.8 and 3.2 of MQTT 3.1.1).
   */
  lemma RunningIsJustified(tr: Trace, run: Run, k: nat, e: nat)
    requires Behavior(tr, run) && e < |tr(k).trace| && tr(k).trace[e] == EntersRunning
    ensures Justified(tr(k).trace, e)
  {
    InOrderAlways(tr, run, k);
  }

  // ---- waiting for a CONNACK that was missed ----

  /** CONNECTING never reads the socket: it is left in a turn exactly if the CONNACK had already been handled. */
  lemma LeavesConnectingIff(s: Session, lib: Lib)
    requires s.state == CONNECTING
    ensures Turn(s, lib).state != CONNECTING <==> s.connected
  {
    HandleAllKeepsState(s, lib.subscribing);
  }

  /** Once `connect` returned without its CONNACK, the thread stays in CONNECTING for ever. */
  lemma {:induction false} MissedConnackIsForever(tr: Trace, run: Run, k: nat, later: nat)
    requires Behavior(tr, run) && tr(k).state == CONNECTING && !tr(k).connected && k <= later
    ensures tr(later).state == CONNECTING && !tr(later).connected
  {
    if k < later {
      MissedConnackIsForever(tr, run, k, later - 1);
      if run(later - 1).Meanwhile? {
        HandleKeepsState(tr(later - 1), run(later - 1).h);
      }
    }
  }

  // ---- publishing after a disconnect ----

  predicate Resets(a: Act) { a == Acked || a == EntersRunning || a == LeavesRunning }

  /** A DISCONNECT was handled, and since then neither a CONNACK nor an entry to or exit from RUNNING. */
  predicate Cut(t: seq<Act>) {
    if t == [] then false
    else
      var last, front := t[|t| - 1], t[..|t| - 1];
      if last == Dropped then true else if Resets(last) then false else Cut(front)
  }

  /** The publish attempts since then. */
  function PublishesWhileCut(t: seq<Act>): nat {
    if t == [] then 0
    else
      var last, front := t[|t| - 1], t[..|t| - 1];
      if Resets(last) then 0
      else PublishesWhileCut(front) + (if last == Publishes && Cut(front) then 1 else 0)
  }

  /** At no point of the history was there a second attempt. */
  ghost predicate AtMostOneAttempt(t: seq<Act>) {
    forall n :: 0 <= n <= |t| ==> PublishesWhileCut(t[..n]) <= 1
  }

  lemma {:induction false} CutIsNotLive(t: seq<Act>)
    ensures Cut(t) ==> !Live(t)
    ensures !Cut(t) ==> PublishesWhileCut(t) == 0
  {
    if t != [] {
      CutIsNotLive(t[..|t| - 1]);
    }
  }

  lemma AppendAttempt(t: seq<Act>, a: Act)
    ensures PublishesWhileCut(t + [a]) ==
            if Resets(a) then 0 else PublishesWhileCut(t) + (if a == Publishes && Cut(t) then 1 else 0)
    ensures AtMostOneAttempt(t) && PublishesWhileCut(t + [a]) <= 1 ==> AtMostOneAttempt(t + [a])
  {
    var u := t + [a];
    assert u[..|u| - 1] == t && u[..|u|] == u;
    hide Cut, Resets;
    if AtMostOneAttempt(t) && PublishesWhileCut(u) <= 1 {
      forall n | 0 <= n <= |u| ensures PublishesWhileCut(u[..n]) <= 1 {
        if n <= |t| {
          assert u[..n] == t[..n];
        }
      }
    }
  }

  lemma {:induction false} OtherActsKeep(t: seq<Act>, acts: seq<Act>)
    requires AtMostOneAttempt(t) && Publishes !in acts
    ensures AtMostOneAttempt(t + acts) && PublishesWhileCut(t + acts) <= PublishesWhileCut(t)
  {
    hide Cut, Resets, PublishesWhileCut, AtMostOneAttempt;
    if acts == [] {
      assert t + acts == t;
    } else {
      var front, last := acts[..|acts| - 1], acts[|acts| - 1];
      OtherActsKeep(t, front);
      AtMostOneNow(t);
      AppendAttempt(t + front, last);
      assert t + front + [last] == t + acts;
    }
  }

  lemma AtMostOneNow(t: seq<Act>)
    requires AtMostOneAttempt(t)
    ensures PublishesWhileCut(t) <= 1
  {
    assert t[..|t|] == t;
  }

  /**
   The library reports that the connection is gone: from the keep-alive after a poll without events, from the input, or,
   after input that worked, as an error on the socket.
   */
  predicate SocketClosed(lib: Lib) {
    if lib.poll == 0 then lib.liveRet == -ENOTCONN
    else lib.pollIn && (lib.inputRet == -ENOTCONN || (lib.inputRet == 0 && lib.pollError))
  }

  /** A turn attempts a publish. */
  predicate Attempts(s: Session, lib: Lib) {
    s.state == RUNNING && s.connected && !SocketClosed(lib) && lib.hasData
  }

  lemma PacketActs(s: Session, hs: seq<Happening>) returns (acts: seq<Act>)
    ensures HandleAll(s, hs).trace == s.trace + acts && OnlyPackets(acts) && Publishes !in acts
  {
    hide HandleAll;
    acts := HandleAllActs(s, hs);
  }

  lemma ReadActs(s: Session, lib: Lib) returns (acts: seq<Act>)
    ensures ReadPayload(s, lib).1.trace == s.trace + acts && OnlyPackets(acts) && Publishes !in acts
  {
    hide HandleAll;
    var live := PacketActs(s, lib.live);
    var input := PacketActs(s, lib.input);
    acts := if lib.poll == 0 then live else if lib.pollIn then input else [];
  }

  /** What a turn adds to the history: other acts, and one publish between packets exactly if it attempts one. */
  lemma TurnActs(s: Session, lib: Lib) returns (before: seq<Act>, after: seq<Act>)
    ensures Publishes !in before && Publishes !in after
    ensures Turn(s, lib).trace == s.trace + before + (if Attempts(s, lib) then [Publishes] else []) + after
    ensures Attempts(s, lib) ==> OnlyPackets(before) && OnlyPackets(after)
  {
    hide HandleAll, ReadPayload, OnlyPackets;
    after := [];
    match s.state
    case BROKER_READY => before := ConnectActs(s, lib);
    case CONNECTING =>
      var acts := PacketActs(s, lib.subscribing);
      before := if !s.connected then []
                else acts + (if lib.subscribeRet >= 0 then [Subscribed, EntersRunning] else []);
    case RUNNING =>
      var read := ReadActs(s, lib);
      var (ret, t) := ReadPayload(s, lib);
      ReadReportsClosedIff(s, lib);
      if !s.connected {
        before := [LeavesRunning];
      } else if ret == -ENOTCONN {
        before := read + [LeavesRunning];
      } else {
        before := read;
        if lib.hasData {
          after := PacketActs(t.(trace := t.trace + [Publishes]), lib.publishing);
        }
      }
    case _ => before := [];
  }

  lemma ReadReportsClosedIff(s: Session, lib: Lib)
    ensures ReadPayload(s, lib).0 == -ENOTCONN <==> SocketClosed(lib)
  {
    hide HandleAll;
  }

  lemma ConnectActs(s: Session, lib: Lib) returns (acts: seq<Act>)
    ensures Connect(s, lib).1.trace == s.trace + acts && Publishes !in acts
  {
    hide HandleAll;
    var called := s.(connected := false, trace := s.trace + [Connects]);
    var first := PacketActs(called, lib.connecting);
    var more := PacketActs(HandleAll(called, lib.connecting), lib.connackInput);
    acts := [Connects] + first + (if lib.connectRet == 0 && lib.connackPoll > 0 then more else []);
  }

  lemma TurnKeepsOneAttempt(s: Session, lib: Lib)
    requires Follows(s) && AtMostOneAttempt(s.trace)
    ensures AtMostOneAttempt(Turn(s, lib).trace)
  {
    hide Turn, Cut, PublishesWhileCut, AtMostOneAttempt, OnlyPackets;
    var before, after := TurnActs(s, lib);
    OtherActsKeep(s.trace, before);
    var read := s.trace + before;
    if Attempts(s, lib) {
      ConnectedIsLive(s);
      CutIsNotLive(s.trace);
      AttemptIsOne(read, PublishesWhileCut(s.trace));
      OtherActsKeep(read + [Publishes], after);
    } else {
      OtherActsKeep(read, after);
      assert read + [] + after == read + after;
    }
  }

  lemma AttemptIsOne(t: seq<Act>, n: nat)
    requires AtMostOneAttempt(t) && PublishesWhileCut(t) <= n == 0
    ensures AtMostOneAttempt(t + [Publishes])
  {
    hide Cut, PublishesWhileCut, AtMostOneAttempt;
    AppendAttempt(t, Publishes);
  }

  lemma {:induction false} OneAttemptAlways(tr: Trace, run: Run, k: nat)
    requires Behavior(tr, run)
    ensures AtMostOneAttempt(tr(k).trace)
  {
    hide Turn, Handle, Follows, PublishesWhileCut;
    if k > 0 {
      OneAttemptAlways(tr, run, k - 1);
      FollowsAlways(tr, run, k - 1);
      match run(k - 1) {
        case Runs(lib) => TurnKeepsOneAttempt(tr(k - 1), lib);
        case Meanwhile(h) => HandleKeepsState(tr(k - 1), h);
      }
    } else {
      assert PublishesWhileCut([]) == 0 by { NothingAttempted(); }
    }
  }

  lemma NothingAttempted()
    ensures PublishesWhileCut([]) == 0
  {
  }

  /**
   At every point of every run at most one publish was attempted since a DISCONNECT was handled, until a CONNACK is
   handled or RUNNING is left.
   */
  lemma OnePublishAfterDisconnect(tr: Trace, run: Run, k: nat, n: nat)
    requires Behavior(tr, run) && n <= |tr(k).trace|
    ensures PublishesWhileCut(tr(k).trace[..n]) <= 1
  {
    OneAttemptAlways(tr, run, k);
  }

  // ---- over a whole stay in RUNNING ----

  predicate Bounds(a: Act) { a == EntersRunning || a == LeavesRunning }

  /** A DISCONNECT was handled in the current stay. */
  predicate DropInStay(t: seq<Act>) {
    if t == [] then false
    else
      var last, front := t[|t| - 1], t[..|t| - 1];
      if last == Dropped then true else if Bounds(last) then false else DropInStay(front)
  }

  /** ... and a CONNACK after the first one. */
  predicate AckAfterDrop(t: seq<Act>) {
    if t == [] then false
    else
      var last, front := t[|t| - 1], t[..|t| - 1];
      if Bounds(last) then false else (last == Acked && DropInStay(front)) || AckAfterDrop(front)
  }

  /** The publish attempts of the current stay after its first DISCONNECT. */
  function PublishesAfterDrop(t: seq<Act>): nat {
    if t == [] then 0
    else
      var last, front := t[|t| - 1], t[..|t| - 1];
      if Bounds(last) then 0
      else PublishesAfterDrop(front) + (if last == Publishes && DropInStay(front) then 1 else 0)
  }

  lemma {:induction false} StayIsCut(t: seq<Act>)
    requires !AckAfterDrop(t)
    ensures DropInStay(t) ==> Cut(t)
    ensures !DropInStay(t) ==> PublishesAfterDrop(t) == 0
    ensures PublishesAfterDrop(t) <= PublishesWhileCut(t)
  {
    if t != [] && !Bounds(t[|t| - 1]) {
      StayIsCut(t[..|t| - 1]);
    }
  }

  /** A stay in which no CONNACK follows the first DISCONNECT sees at most one publish after it. */
  lemma OnePublishPerStay(tr: Trace, run: Run, k: nat, n: nat)
    requires Behavior(tr, run) && n <= |tr(k).trace| && !AckAfterDrop(tr(k).trace[..n])
    ensures PublishesAfterDrop(tr(k).trace[..n]) <= 1
  {
    OnePublishAfterDisconnect(tr, run, k, n);
    StayIsCut(tr(k).trace[..n]);
  }

  lemma {:induction false} PacketsKeepCount(t: seq<Act>, acts: seq<Act>)
    requires OnlyPackets(acts)
    ensures PublishesAfterDrop(t + acts) == PublishesAfterDrop(t)
    ensures DropInStay(t) ==> DropInStay(t + acts)
  {
    if acts == [] {
      assert t + acts == t;
    } else {
      PacketsKeepCount(t, acts[..|acts| - 1]);
      assert (t + acts)[..|t + acts| - 1] == t + acts[..|acts| - 1];
    }
  }

  lemma {:induction false} OthersNeverCount(t: seq<Act>, acts: seq<Act>)
    requires Publishes !in acts
    ensures PublishesAfterDrop(t + acts) <= PublishesAfterDrop(t)
  {
    if acts == [] {
      assert t + acts == t;
    } else {
      OthersNeverCount(t, acts[..|acts| - 1]);
      assert (t + acts)[..|t + acts| - 1] == t + acts[..|acts| - 1];
    }
  }

  lemma {:induction false} LiveAfterDropHasAck(t: seq<Act>)
    requires Live(t) && DropInStay(t)
    ensures AckAfterDrop(t)
  {
    if t[|t| - 1] != Acked {
      LiveAfterDropHasAck(t[..|t| - 1]);
    }
  }

  /**
   After a DISCONNECT in the current stay, whatever is handled during the turn, the next turn publishes again exactly if
   a CONNACK has revived the session since, the socket is not reported closed, and there is data.
   */
  lemma PublishesAgainIff(s: Session, lib: Lib)
    requires Follows(s) && s.state == RUNNING && DropInStay(s.trace)
    ensures PublishesAfterDrop(Turn(s, lib).trace) == PublishesAfterDrop(s.trace) + 1 <==>
            Live(s.trace) && !SocketClosed(lib) && lib.hasData
    ensures Live(s.trace) ==> AckAfterDrop(s.trace)
  {
    hide Turn, PublishesAfterDrop, DropInStay, OnlyPackets, Live;
    var before, after := TurnActs(s, lib);
    var read := s.trace + before;
    ConnectedIsLive(s);
    if Live(s.trace) {
      LiveAfterDropHasAck(s.trace);
    }
    if Attempts(s, lib) {
      PacketsKeepCount(s.trace, before);
      CountAttempt(read);
      PacketsKeepCount(read + [Publishes], after);
    } else {
      assert Turn(s, lib).trace == s.trace + (before + after);
      OthersNeverCount(s.trace, before + after);
    }
  }

  lemma CountAttempt(t: seq<Act>)
    requires DropInStay(t)
    ensures PublishesAfterDrop(t + [Publishes]) == PublishesAfterDrop(t) + 1
  {
    assert (t + [Publishes])[..|t|] == t;
  }
}
