/**
  Connecting to one of several addresses (lib/b_addrgroup.c): attempts, timeouts, write readiness.

  `World` is the connect state with everything that may refer to it: the events and the handler
  in the run loop, and the sockets.  A step is one call from the run loop, and runs through as
  many attempts as fail at once.  The theorems hold for every answer of the system and every
  order of events, from a first attempt that is pending.
*/
module Failover {
  import opened Options

  type Addr = nat
  type Fd = nat
  type Timer = nat

  datatype Errno = AddrInUse | ConnRefused | NetUnreach | TimedOut | Other

  /** as_state, without the states of listeners. */
  datatype Phase = SysError | RemoteError | LocalError | Timeout | Connected | Closing

  /** bk_net_init_sys_error */
  function SysErrorPhase(e: Errno): Phase
  {
    match e
    case AddrInUse => LocalError
    case ConnRefused => RemoteError
    case NetUnreach => RemoteError
    case TimedOut => Timeout
    case Other => SysError
  }

  /** What the system and the user answer while one address is tried, and errno after a failure. */
  datatype Answers = Answers(
    socketOk: bool, nonblockOk: bool, userOk: bool, bindOk: bool, sockaddrOk: bool,
    connectOk: bool, timerOk: bool, handleOk: bool, errno: Errno)

  datatype Target = Target(addr: Addr, answers: Answers)

  datatype Conf = Conf(targets: seq<Target>, timeout: bool, local: bool, callback: bool)

  datatype World = World(
    conf: Conf,
    // the connect state
    sock: Option<Fd>, phase: Phase, eventh: Option<Timer>, callback: bool, at: nat, freed: bool,
    // what refers to it, and how many sockets and timers there have been
    timers: set<Timer>, handler: Option<Fd>, fds: nat, clocks: nat,
    // what happened: addresses tried, sockets closed, final callbacks, a call with the state already freed
    tried: seq<Addr>, closed: seq<Fd>, told: seq<(Phase, Option<Fd>)>, misused: bool)

  // ----- the functions of the source

  function NetClose(w: World): World
  {
    if w.sock.None? then w else w.(handler := None, closed := w.closed + [w.sock.value], sock := None)
  }

  function Destroy(w: World): World
  {
    if w.phase == Closing then w
    else
      var c := w.(phase := Closing, told := if w.callback then w.told + [(Closing, None)] else w.told);
      var d := if c.eventh.Some? then c.(timers := c.timers - {c.eventh.value}) else c;
      NetClose(d).(freed := true)
  }

  /** net_init_end */
  function End(w: World): World
  {
    var c :=
      if w.callback then
        w.(told := w.told + [(w.phase, w.sock)], callback := false,
           sock := if w.phase == Connected then None else w.sock)
      else w;
    Destroy(c)
  }

  datatype Tried = Pending(w: World) | Failed(w: World)

  /** The end of an attempt: the timer, and then the handler. */
  function Watch(w: World, a: Answers): Tried
  {
    if w.conf.timeout && !a.timerOk then Failed(w)
    else
      var w :=
        if w.conf.timeout then w.(timers := w.timers + {w.clocks}, eventh := Some(w.clocks), clocks := w.clocks + 1)
        else w.(eventh := None);
      if !a.handleOk then Failed(w) else Pending(w.(handler := w.sock))
  }

  /** The middle of an attempt, with its socket just made. */
  function Prepare(w: World, a: Answers): Tried
  {
    if !a.nonblockOk || (w.callback && !a.userOk) then Failed(w)
    else if w.conf.local && !a.bindOk then Failed(NetClose(w))
    else if !a.sockaddrOk || !a.connectOk then Failed(w)
    else Watch(w, a)
  }

  /** One address, up to the point where the socket waits for write readiness. */
  function TryNext(w: World): Tried
    requires w.at < |w.conf.targets|
  {
    var Target(addr, a) := w.conf.targets[w.at];
    var w := w.(at := w.at + 1, tried := w.tried + [addr]);
    if !a.socketOk then Failed(w) else Prepare(w.(sock := Some(w.fds), fds := w.fds + 1), a)
  }

  /** do_net_init_stream_connect */
  function Connect(w: World): World
    decreases |w.conf.targets| - w.at
  {
    if w.at >= |w.conf.targets| then End(w)
    else
      match TryNext(w)
      case Pending(p) => p
      case Failed(f) => Connect(NetClose(f).(phase := SysErrorPhase(w.conf.targets[w.at].answers.errno)))
  }

  // ----- the run loop

  /** How the second connect went. */
  datatype Probe = Fine | SecondRefused | Bad(errno: Errno)

  datatype Event =
    | Fire(timer: Timer)
    | Notice                                   // the socket is being closed by the program
    | Broken                                   // read ready, exception, bad descriptor, run loop destroyed
    | Writable(sockaddrOk: bool, probe: Probe)

  function OnTimeout(w: World, t: Timer): World
  {
    Connect(NetClose(w.(timers := w.timers - {t}, eventh := None)).(phase := Timeout))
  }

  /** The timer dropped, and the socket withdrawn from the run loop. */
  function Withdrawn(w: World): World
  {
    w.(timers := Stale(w.timers, w.eventh), eventh := None, handler := None)
  }

  function OnWritable(w: World, sockaddrOk: bool, probe: Probe): World
  {
    var c := Withdrawn(w);
    if !sockaddrOk then End(c)
    else
      match probe
      case Fine => End(c.(phase := Connected))
      case SecondRefused => Connect(NetClose(c).(phase := RemoteError))
      case Bad(e) => Connect(NetClose(c).(phase := SysErrorPhase(e)))
  }

  /** Only a live timer fires, and only a registered handler is called. */
  predicate Enabled(w: World, ev: Event)
  {
    !w.misused && (if ev.Fire? then ev.timer in w.timers else w.handler.Some?)
  }

  /** One call from the run loop; a call that reaches a freed state is recorded and ends the run. */
  function Step(w: World, ev: Event): World
  {
    if !Enabled(w, ev) then w
    else if w.freed then w.(misused := true)
    else
      match ev
      case Fire(t) => OnTimeout(w, t)
      case Notice => w
      case Broken => End(w)
      case Writable(sockaddrOk, probe) => OnWritable(w, sockaddrOk, probe)
  }

  // ----- what every step keeps

  /** The attempt at this address gets as far as setting a timer. */
  predicate SetsTimer(conf: Conf, i: nat)
    requires i < |conf.targets|
  {
    var a := conf.targets[i].answers;
    && a.socketOk && a.nonblockOk && (conf.callback ==> a.userOk) && (conf.local ==> a.bindOk)
    && a.sockaddrOk && a.connectOk && conf.timeout && a.timerOk
  }

  /** It sets a timer, and then cannot have its socket watched. */
  predicate Refused(conf: Conf, i: nat)
    requires i < |conf.targets|
  {
    SetsTimer(conf, i) && !conf.targets[i].answers.handleOk
  }

  predicate SomeRefused(conf: Conf, n: nat)
    requires n <= |conf.targets|
  {
    exists i :: 0 <= i < n && Refused(conf, i)
  }

  /** Among the first `n` addresses, one sets a timer after an earlier one was refused. */
  predicate SetAfterRefused(conf: Conf, n: nat)
    requires n <= |conf.targets|
  {
    exists i, j :: 0 <= i < j < n && Refused(conf, i) && SetsTimer(conf, j)
  }

  predicate Distinct(s: seq<Fd>) { forall i, j :: 0 <= i < j < |s| ==> s[i] != s[j] }

  /** The live timers that the state has lost its handle of. */
  function Stale(timers: set<Timer>, eventh: Option<Timer>): set<Timer> { timers - Live(eventh) }

  function Live(o: Option<nat>): set<nat> { if o.Some? then {o.value} else {} }

  /** The addresses were tried in the order of the list. */
  ghost predicate TriedInOrder(conf: Conf, at: nat, tried: seq<Addr>)
    requires at <= |conf.targets|
  {
    |tried| == at && forall i :: 0 <= i < at ==> tried[i] == conf.targets[i].addr
  }

  /** Every socket but those in `live` has been closed, none of them twice. */
  ghost predicate SocketsClosed(closed: seq<Fd>, fds: nat, live: set<Fd>)
  {
    && Distinct(closed) && (forall fd: Fd :: fd in closed <==> fd < fds && fd !in live)
    && forall fd :: fd in live ==> fd < fds
  }

  /** A timer is lost exactly if one was set after a refusal. */
  ghost predicate TimersKept(conf: Conf, n: nat, timers: set<Timer>, eventh: Option<Timer>, clocks: nat)
    requires n <= |conf.targets|
  {
    && (forall t :: t in timers ==> t < clocks) && Live(eventh) <= timers
    && (Stale(timers, eventh) == {} <==> !SetAfterRefused(conf, n))
    && (!conf.timeout ==> timers == {})
  }

  /** Not ended; the timers of the first `n` attempts have been seen to. */
  ghost predicate Unfinished(w: World, n: nat)
    requires n <= |w.conf.targets|
  {
    && w.at <= |w.conf.targets| && TriedInOrder(w.conf, w.at, w.tried) && !w.freed && !w.misused && w.told == []
    && w.callback == w.conf.callback && !w.phase.Connected? && !w.phase.Closing?
    && SocketsClosed(w.closed, w.fds, Live(w.sock))
    && TimersKept(w.conf, n, w.timers, w.eventh, w.clocks)
  }

  /** In the middle of an attempt, the socket open or not: nothing is registered for it yet. */
  ghost predicate Trying(w: World, n: nat)
    requires n <= |w.conf.targets|
  {
    && Unfinished(w, n) && w.handler == None && (w.eventh.Some? ==> SomeRefused(w.conf, n))
    && (SomeRefused(w.conf, n) && !SetAfterRefused(w.conf, n) ==> w.eventh.Some?)
  }

  /** An attempt has failed, or none has been made. */
  ghost predicate Ready(w: World) { w.at <= |w.conf.targets| && Trying(w, w.at) }

  /** Waiting for the socket. */
  ghost predicate Waiting(w: World)
  {
    && w.at <= |w.conf.targets| && Unfinished(w, w.at) && w.sock.Some? && w.handler == w.sock
    && (SomeRefused(w.conf, w.at) ==> SetAfterRefused(w.conf, w.at)) && (w.eventh.Some? <==> w.conf.timeout)
  }

  /** The socket that the user was given for good. */
  function HandedOver(w: World): Option<Fd>
  {
    if |w.told| == 1 && w.told[0].0.Connected? then w.told[0].1 else None
  }

  /** Freed: one final callback, every socket closed but the one handed over, and no reference but a lost timer. */
  ghost predicate Over(w: World)
  {
    && w.at <= |w.conf.targets| && TriedInOrder(w.conf, w.at, w.tried) && w.freed && w.handler == None
    && |w.told| == (if w.conf.callback then 1 else 0)
    && (w.conf.callback ==> w.told[0].0 != Closing && (w.told[0].0.Connected? ==> w.told[0].1.Some?))
    && SocketsClosed(w.closed, w.fds, Live(HandedOver(w)))
    && (w.timers == {} <==> !SetAfterRefused(w.conf, w.at)) && (w.misused ==> SetAfterRefused(w.conf, w.at))
  }

  ghost predicate Inv(w: World) { Waiting(w) || Over(w) }

  // ----- how the parts of a step keep it

  lemma OneMore(conf: Conf, n: nat)
    requires n < |conf.targets|
    ensures SomeRefused(conf, n + 1) <==> SomeRefused(conf, n) || Refused(conf, n)
    ensures SetAfterRefused(conf, n + 1) <==> SetAfterRefused(conf, n) || (SomeRefused(conf, n) && SetsTimer(conf, n))
  {
  }

  lemma SocketOpened(closed: seq<Fd>, fds: nat)
    requires SocketsClosed(closed, fds, {})
    ensures SocketsClosed(closed, fds + 1, {fds})
  {
  }

  lemma SocketClosed(closed: seq<Fd>, fds: nat, fd: Fd)
    requires SocketsClosed(closed, fds, {fd})
    ensures SocketsClosed(closed + [fd], fds, {})
  {
  }

  /** A new timer takes the place of the handle, which may still belong to another. */
  lemma TimerSet(conf: Conf, n: nat, timers: set<Timer>, eventh: Option<Timer>, clocks: nat)
    requires n < |conf.targets| && TimersKept(conf, n, timers, eventh, clocks) && SetsTimer(conf, n)
    requires SomeRefused(conf, n) && !SetAfterRefused(conf, n) ==> eventh.Some?
    requires eventh.Some? ==> SomeRefused(conf, n)
    ensures TimersKept(conf, n + 1, timers + {clocks}, Some(clocks), clocks + 1)
  {
  }

  /** An attempt that sets no timer changes nothing about them. */
  lemma NoTimerSet(w: World)
    requires 0 < w.at <= |w.conf.targets| && Trying(w, w.at - 1) && !SetsTimer(w.conf, w.at - 1)
    ensures Trying(w, w.at)
  {
  }

  lemma WatchKept(w: World)
    requires 0 < w.at <= |w.conf.targets| && Trying(w, w.at - 1) && w.sock.Some?
    requires var a := w.conf.targets[w.at - 1].answers; SetsTimer(w.conf, w.at - 1) <==> w.conf.timeout && a.timerOk
    ensures match Watch(w, w.conf.targets[w.at - 1].answers)
      case Pending(p) => Waiting(p) && p.conf == w.conf
      case Failed(f) => Ready(f) && f.conf == w.conf && f.at == w.at
  {
    var n := w.at - 1;
    OneMore(w.conf, n);
    assert Refused(w.conf, n) <==> SetsTimer(w.conf, n) && !w.conf.targets[n].answers.handleOk;
    hide SetAfterRefused, SomeRefused, SocketsClosed, TriedInOrder, SetsTimer, Refused;
    if SetsTimer(w.conf, n) {
      TimerSet(w.conf, n, w.timers, w.eventh, w.clocks);
      hide TimersKept;
    } else {
      NoTimerSet(w);
      if !w.conf.timeout {
        NoTimers(w);
      }
    }
  }

  lemma NoTimers(w: World)
    requires w.at <= |w.conf.targets| && Trying(w, w.at) && !w.conf.timeout
    ensures w.eventh == None && !SomeRefused(w.conf, w.at)
  {
  }

  lemma CloseKept(w: World, phase: Phase)
    requires Ready(w) && !phase.Connected? && !phase.Closing?
    ensures Ready(NetClose(w).(phase := phase))
  {
    hide SetAfterRefused, SomeRefused, SocketsClosed, TriedInOrder, TimersKept;
    if w.sock.Some? {
      SocketClosed(w.closed, w.fds, w.sock.value);
    }
  }

  /** One attempt ends with a waiting socket, or leaves the state ready for the next address. */
  lemma TryNextKept(w: World)
    requires Ready(w) && w.sock == None && w.at < |w.conf.targets|
    ensures match TryNext(w)
      case Pending(p) => Waiting(p) && p.conf == w.conf
      case Failed(f) => Ready(f) && f.conf == w.conf && f.at == w.at + 1
  {
    hide SetAfterRefused, SomeRefused, SocketsClosed, TimersKept, Watch;
    var Target(addr, a) := w.conf.targets[w.at];
    var next := w.(at := w.at + 1, tried := w.tried + [addr]);
    var o := next.(sock := Some(w.fds), fds := w.fds + 1);
    SocketOpened(w.closed, w.fds);
    assert TriedInOrder(next.conf, next.at, next.tried);
    var watched := SetsTimer(w.conf, w.at);
    hide TriedInOrder, SetsTimer;
    if watched {
      WatchKept(o);
    } else if !a.socketOk {
      NoTimerSet(next);
    } else {
      NoTimerSet(o);
      CloseKept(o, o.phase);
      if a.nonblockOk && (w.callback ==> a.userOk) && (w.conf.local ==> a.bindOk) && a.sockaddrOk && a.connectOk {
        WatchKept(o);
      }
    }
  }

  /** The state about to end: its socket may be open. */
  ghost predicate Ending(w: World)
  {
    && w.at <= |w.conf.targets| && TriedInOrder(w.conf, w.at, w.tried) && !w.freed && !w.misused && w.told == []
    && w.callback == w.conf.callback && !w.phase.Closing? && (w.phase.Connected? ==> w.sock.Some? && w.handler == None)
    && (w.handler == None || w.handler == w.sock) && SocketsClosed(w.closed, w.fds, Live(w.sock))
    && TimersKept(w.conf, w.at, w.timers, w.eventh, w.clocks)
  }

  lemma EndIsOver(w: World)
    requires Ending(w)
    ensures Over(End(w)) && End(w).conf == w.conf
  {
    hide SetAfterRefused, SomeRefused, SocketsClosed, TriedInOrder;
    if w.sock.Some? {
      SocketClosed(w.closed, w.fds, w.sock.value);
    }
  }

  lemma {:induction false} ConnectKept(w: World)
    requires Ready(w) && w.sock == None
    ensures Inv(Connect(w)) && Connect(w).conf == w.conf
    decreases |w.conf.targets| - w.at
  {
    hide SetAfterRefused, SomeRefused, SocketsClosed, TimersKept, TryNext, End;
    if w.at == |w.conf.targets| {
      EndIsOver(w);
    } else {
      var phase := SysErrorPhase(w.conf.targets[w.at].answers.errno);
      TryNextKept(w);
      match TryNext(w)
      case Pending(p) =>
      case Failed(f) =>
        CloseKept(f, phase);
        ConnectKept(NetClose(f).(phase := phase));
    }
  }

  /** Going on to the next address after the handle of the timer is gone. */
  lemma GoOn(w: World, timers: set<Timer>, handler: Option<Fd>, phase: Phase)
    requires Waiting(w) && (handler == w.handler || handler == None) && !phase.Connected? && !phase.Closing?
    requires timers <= w.timers && (timers == {} <==> !SetAfterRefused(w.conf, w.at))
    ensures var c := Connect(NetClose(w.(timers := timers, eventh := None, handler := handler)).(phase := phase));
      Inv(c) && c.conf == w.conf
  {
    hide Connect;
    GivenUp(w, timers, handler, phase);
    ConnectKept(NetClose(w.(timers := timers, eventh := None, handler := handler)).(phase := phase));
  }

  lemma GivenUp(w: World, timers: set<Timer>, handler: Option<Fd>, phase: Phase)
    requires Waiting(w) && (handler == w.handler || handler == None) && !phase.Connected? && !phase.Closing?
    requires timers <= w.timers && (timers == {} <==> !SetAfterRefused(w.conf, w.at))
    ensures Ready(NetClose(w.(timers := timers, eventh := None, handler := handler)).(phase := phase))
  {
    hide SetAfterRefused, SomeRefused, SocketsClosed, TriedInOrder;
    SocketClosed(w.closed, w.fds, w.sock.value);
  }

  /** When a timer fires and the handle of the current one is dropped. */
  lemma OneFired(w: World, t: Timer)
    requires Waiting(w) && t in w.timers
    ensures w.timers - {t} == {} <==> !SetAfterRefused(w.conf, w.at)
  {
    hide SetAfterRefused, SomeRefused;
    var current := w.eventh.value;
    assert current in Live(w.eventh) && current in w.timers;
    if SetAfterRefused(w.conf, w.at) {
      var x :| x in Stale(w.timers, w.eventh);
      assert x in w.timers - {t} || current in w.timers - {t};
    } else {
      assert t == current by {
        assert t !in Stale(w.timers, w.eventh);
      }
      assert w.timers - {t} == Stale(w.timers, w.eventh);
    }
  }

  lemma WritableKept(w: World, sockaddrOk: bool, probe: Probe)
    requires Waiting(w)
    ensures Inv(OnWritable(w, sockaddrOk, probe)) && OnWritable(w, sockaddrOk, probe).conf == w.conf
  {
    hide SetAfterRefused, SomeRefused, SocketsClosed, TriedInOrder, Connect, End;
    var timers := Stale(w.timers, w.eventh);
    var c := w.(timers := timers, eventh := None, handler := None);
    if !sockaddrOk {
      EndIsOver(c);
    } else {
      match probe
      case Fine => EndIsOver(c.(phase := Connected));
      case SecondRefused => GoOn(w, timers, None, RemoteError);
      case Bad(e) => GoOn(w, timers, None, SysErrorPhase(e));
    }
  }

  lemma StepKept(w: World, ev: Event)
    requires Inv(w)
    ensures Inv(Step(w, ev)) && Step(w, ev).conf == w.conf
  {
    hide SetAfterRefused, SomeRefused, SocketsClosed, Connect, End, OnWritable;
    if Enabled(w, ev) && Waiting(w) {
      match ev
      case Fire(t) =>
        OneFired(w, t);
        GoOn(w, w.timers - {t}, w.handler, Timeout);
      case Notice =>
      case Broken => EndIsOver(w);
      case Writable(sockaddrOk, probe) => WritableKept(w, sockaddrOk, probe);
    }
  }

  // ----- whole runs

  function Initial(conf: Conf): World
  {
    World(conf, None, SysError, None, conf.callback, 0, false, {}, None, 0, 0, [], [], [], false)
  }

  /** The first attempt has returned a socket. */
  predicate FirstPends(conf: Conf)
  {
    conf.targets != [] && TryNext(Initial(conf)).Pending?
  }

  function Run(w: World, events: seq<Event>): World
    decreases |events|
  {
    if events == [] then w else Run(Step(w, events[0]), events[1..])
  }

  lemma {:induction false} RunKept(w: World, events: seq<Event>)
    requires Inv(w)
    ensures Inv(Run(w, events)) && Run(w, events).conf == w.conf
    decreases |events|
  {
    if events != [] {
      hide Inv, Step;
      StepKept(w, events[0]);
      RunKept(Step(w, events[0]), events[1..]);
    }
  }

  lemma InitialReady(conf: Conf)
    ensures Ready(Initial(conf))
  {
    assert Stale({}, None) == {} && !SomeRefused(conf, 0) && !SetAfterRefused(conf, 0);
  }

  lemma StartWaits(conf: Conf)
    requires FirstPends(conf)
    ensures Waiting(TryNext(Initial(conf)).w) && TryNext(Initial(conf)).w.conf == conf
  {
    InitialReady(conf);
    TryNextKept(Initial(conf));
  }

  /** Where a connect can be after any events. */
  function After(conf: Conf, events: seq<Event>): World
    requires FirstPends(conf)
  {
    Run(TryNext(Initial(conf)).w, events)
  }

  /**
    Whatever the system answers and in whatever order things happen: the addresses are tried in
    order and at most once; there is at most one final callback, and there is one once the state
    is freed; no socket is closed twice, and once the state is freed all are closed but the one
    handed over as connected.
  */
  lemma FailoverIsSafe(conf: Conf, events: seq<Event>)
    requires FirstPends(conf)
    ensures var w := After(conf, events);
      && |w.tried| <= |conf.targets| && (forall i :: 0 <= i < |w.tried| ==> w.tried[i] == conf.targets[i].addr)
      && |w.told| == (if w.freed && conf.callback then 1 else 0) && (|w.told| == 1 ==> w.told[0].0 != Closing)
      && (forall i, j :: 0 <= i < j < |w.closed| ==> w.closed[i] != w.closed[j])
      && (forall fd :: fd in w.closed ==> fd < w.fds)
      && (w.freed ==> w.handler == None)
      && (w.freed ==> forall fd: Fd :: fd < w.fds ==> (fd in w.closed <==> HandedOver(w) != Some(fd)))
      && (!w.freed ==> w.handler.Some?)
      && (!w.freed ==> forall fd: Fd :: fd < w.fds ==> (fd in w.closed <==> w.handler != Some(fd)))
  {
    StartWaits(conf);
    RunKept(TryNext(Initial(conf)).w, events);
    hide TryNext, Run;
  }

  /**
    When a timer is left behind: once the state is freed, a timer still refers to it exactly if an
    attempt whose handler was refused was followed by one that set its timer; and only then can a
    timer be called with the state already freed.
  */
  lemma TimerLeftExactly(conf: Conf, events: seq<Event>)
    requires FirstPends(conf)
    ensures var w := After(conf, events);
      && w.at <= |conf.targets|
      && (w.freed ==> (w.timers == {} <==> !SetAfterRefused(conf, w.at)))
      && (w.misused ==> SetAfterRefused(conf, w.at))
  {
    StartWaits(conf);
    RunKept(TryNext(Initial(conf)).w, events);
    hide TryNext, Run;
  }

  /** Three addresses: the second cannot be watched after its timer was set. */
  function Unlucky(): Conf
  {
    var fine := Answers(true, true, true, true, true, true, true, true, Other);
    Conf([Target(0, fine), Target(1, fine.(handleOk := false)), Target(2, fine)], true, false, true)
  }

  lemma SecondRefusedThirdWaits(w: World)
    requires w == TryNext(Initial(Unlucky())).w
    ensures var v := Step(w, Fire(0));
      v.timers == {1, 2} && v.eventh == Some(2) && v.sock == Some(2) && v.handler == Some(2) && v.callback
      && !v.freed && !v.misused && v.phase != Closing
  {
    var a := NetClose(w.(timers := w.timers - {0}, eventh := None)).(phase := Timeout);
    assert a.timers == {} && a.at == 1 && a.clocks == 1 && a.fds == 1;
    var t := TryNext(a);
    assert t.Failed?;
    var b := NetClose(t.w).(phase := SysError);
    assert b.timers == {1} && b.at == 2 && b.clocks == 2 && b.fds == 2;
    assert TryNext(b).Pending?;
    assert Connect(a) == Connect(b);
  }

  lemma ThirdConnects(w: World)
    requires w.timers == {1, 2} && w.eventh == Some(2) && w.sock == Some(2) && w.handler == Some(2) && w.callback
    requires !w.freed && !w.misused && w.phase != Closing
    ensures Step(Step(w, Writable(true, Fine)), Fire(1)).misused
  {
  }

  /** The first address times out, the third connects, and the timer of the second finds the state freed. */
  lemma TimerFindsFreedState()
    ensures FirstPends(Unlucky())
    ensures After(Unlucky(), [Fire(0), Writable(true, Fine), Fire(1)]).misused
  {
    var w0 := TryNext(Initial(Unlucky())).w;
    SecondRefusedThirdWaits(w0);
    var w1 := Step(w0, Fire(0));
    ThirdConnects(w1);
    hide Step, TryNext;
    var events := [Fire(0), Writable(true, Fine), Fire(1)];
    assert events[1..] == [Writable(true, Fine), Fire(1)];
    assert events[1..][1..] == [Fire(1)] && events[1..][1..][1..] == [];
  }

  // ----- who is told what

  /** A chain of failures is reported as its last one, without a socket. */
  lemma {:induction false} ConnectReports(w: World)
    requires Ready(w) && w.sock == None && w.conf.callback
    ensures var c := Connect(w); c.told == if c.freed then [(LastFailure(w.conf, w.at, w.phase), None)] else []
    decreases |w.conf.targets| - w.at
  {
    hide SetAfterRefused, SomeRefused, SocketsClosed, TimersKept, TryNext, SysErrorPhase;
    if w.at < |w.conf.targets| {
      var phase := SysErrorPhase(w.conf.targets[w.at].answers.errno);
      ErrnoIsFailure(w.conf.targets[w.at].answers.errno);
      TryNextKept(w);
      match TryNext(w)
      case Pending(p) =>
      case Failed(f) =>
        CloseKept(f, phase);
        ConnectReports(NetClose(f).(phase := phase));
    }
  }

  lemma ErrnoIsFailure(e: Errno)
    ensures !SysErrorPhase(e).Connected? && !SysErrorPhase(e).Closing?
  {
  }

  /** The failure of the last address, if there is one left to try, or else of the one just given up. */
  function LastFailure(conf: Conf, at: nat, phase: Phase): Phase
  {
    var n := |conf.targets|;
    if at < n then SysErrorPhase(conf.targets[n - 1].answers.errno) else phase
  }

  /** What the user is told by a step that ends the connect. */
  function Report(w: World, ev: Event): (Phase, Option<Fd>)
  {
    if ev.Broken? || (ev.Writable? && !ev.sockaddrOk) then (w.phase, w.sock)
    else if ev.Writable? && ev.probe.Fine? then (Connected, w.sock)
    else
      var cause :=
        if !ev.Writable? then Timeout else if ev.probe.Bad? then SysErrorPhase(ev.probe.errno) else RemoteError;
      (LastFailure(w.conf, w.at, cause), None)
  }

  /**
    The final callback: the socket if it is writable and the second connect went well, the state so
    far if the wait was broken off, and otherwise the failure of the last address.
  */
  lemma ReportedExactly(w: World, ev: Event)
    requires Waiting(w) && Enabled(w, ev) && w.conf.callback
    ensures var v := Step(w, ev); v.told == if v.freed then [Report(w, ev)] else []
    ensures ev.Broken? || (ev.Writable? && (ev.probe.Fine? || !ev.sockaddrOk)) ==> Step(w, ev).freed
  {
    hide SetAfterRefused, SomeRefused, SocketsClosed, Connect, SysErrorPhase;
    var timers := if ev.Fire? then w.timers - {ev.timer} else Stale(w.timers, w.eventh);
    if ev.Fire? {
      OneFired(w, ev.timer);
      GivenUp(w, timers, w.handler, Timeout);
      ConnectReports(NetClose(w.(timers := timers, eventh := None)).(phase := Timeout));
    } else if ev.Writable? && ev.sockaddrOk && !ev.probe.Fine? {
      var phase := if ev.probe.Bad? then SysErrorPhase(ev.probe.errno) else RemoteError;
      if ev.probe.Bad? {
        ErrnoIsFailure(ev.probe.errno);
      }
      GivenUp(w, timers, None, phase);
      ConnectReports(NetClose(w.(timers := timers, eventh := None, handler := None)).(phase := phase));
    }
  }

  /** The wait for the first address is broken off: the state to begin with, and the socket of that address. */
  lemma FirstBrokenOff(conf: Conf)
    requires FirstPends(conf) && conf.callback
    ensures After(conf, [Broken]).told == [(SysError, Some(0))]
  {
    var w := TryNext(Initial(conf)).w;
    StartWaits(conf);
    assert w.phase == SysError && w.sock == Some(0);
    ReportedExactly(w, Broken);
    assert [Broken][1..] == [];
    hide TryNext, Step;
  }

  /** What the user is told of an errno. */
  predicate Means(e: Errno, phase: Phase)
  {
    && (e == AddrInUse ==> phase == LocalError) && (e == ConnRefused || e == NetUnreach ==> phase == RemoteError)
    && (e == TimedOut ==> phase == Timeout) && (e == Other ==> phase == SysError)
  }

  lemma ErrnoMeans(e: Errno)
    ensures Means(e, SysErrorPhase(e))
  {
  }

  /** With no address left, a connect that cannot go on has ended. */
  lemma NoneLeft(w: World)
    requires Ready(w) && w.sock == None && w.at == |w.conf.targets|
    ensures Connect(w).freed
  {
    hide SetAfterRefused, SomeRefused, SocketsClosed, TimersKept;
    EndIsOver(w);
  }

  /** The last address fails while the program waits for it: the user is told how, and given no socket. */
  lemma LastAddressFails(w: World, e: Errno, t: Timer)
    requires Waiting(w) && w.at == |w.conf.targets| && w.conf.callback
    ensures var v := Step(w, Writable(true, Bad(e)));
      v.freed && |v.told| == 1 && Means(e, v.told[0].0) && v.told[0].1 == None
    ensures Step(w, Writable(true, SecondRefused)).told == [(RemoteError, None)]
    ensures t in w.timers ==> Step(w, Fire(t)).told == [(Timeout, None)]
  {
    hide SetAfterRefused, SomeRefused, SocketsClosed, TimersKept, Connect, SysErrorPhase;
    LastIsOver(w, Writable(true, Bad(e)));
    LastIsOver(w, Writable(true, SecondRefused));
    ReportedExactly(w, Writable(true, Bad(e)));
    ReportedExactly(w, Writable(true, SecondRefused));
    ErrnoMeans(e);
    if t in w.timers {
      LastIsOver(w, Fire(t));
      ReportedExactly(w, Fire(t));
    }
  }

  lemma LastIsOver(w: World, ev: Event)
    requires Waiting(w) && w.at == |w.conf.targets| && Enabled(w, ev)
    requires ev.Fire? || (ev.Writable? && ev.sockaddrOk && !ev.probe.Fine?)
    ensures Step(w, ev).freed
  {
    hide SetAfterRefused, SomeRefused, SocketsClosed, Connect, SysErrorPhase;
    var timers := if ev.Fire? then w.timers - {ev.timer} else Stale(w.timers, w.eventh);
    if ev.Fire? {
      OneFired(w, ev.timer);
      GivenUp(w, timers, w.handler, Timeout);
      NoneLeft(NetClose(w.(timers := timers, eventh := None)).(phase := Timeout));
    } else {
      var phase := if ev.probe.Bad? then SysErrorPhase(ev.probe.errno) else RemoteError;
      if ev.probe.Bad? {
        ErrnoIsFailure(ev.probe.errno);
      }
      GivenUp(w, timers, None, phase);
      NoneLeft(NetClose(w.(timers := timers, eventh := None, handler := None)).(phase := phase));
    }
  }

  /** The last attempt fails at once: the user is told of its errno, and given no socket. */
  lemma LastAttemptFails(w: World)
    requires Ready(w) && w.sock == None && w.conf.callback && w.at + 1 == |w.conf.targets| && TryNext(w).Failed?
    ensures var v := Connect(w);
      v.freed && |v.told| == 1 && Means(w.conf.targets[w.at].answers.errno, v.told[0].0) && v.told[0].1 == None
  {
    hide SetAfterRefused, SomeRefused, SocketsClosed, TimersKept, TryNext, SysErrorPhase;
    var e := w.conf.targets[w.at].answers.errno;
    ErrnoIsFailure(e);
    ErrnoMeans(e);
    TryNextKept(w);
    CloseKept(TryNext(w).w, SysErrorPhase(e));
    NoneLeft(NetClose(TryNext(w).w).(phase := SysErrorPhase(e)));
    ConnectReports(w);
  }

  // ----- no failure is reported before the list is exhausted

  predicate Aborts(ev: Event) { ev.Broken? || (ev.Writable? && !ev.sockaddrOk) }

  predicate ExhaustedOrConnected(w: World)
  {
    w.freed && |w.told| == 1 && !w.told[0].0.Connected? ==> w.at == |w.conf.targets|
  }

  lemma {:induction false} ConnectExhausts(w: World)
    requires Ready(w) && w.sock == None
    ensures ExhaustedOrConnected(Connect(w))
    decreases |w.conf.targets| - w.at
  {
    hide SetAfterRefused, SomeRefused, SocketsClosed, TimersKept, TryNext;
    if w.at < |w.conf.targets| {
      var phase := SysErrorPhase(w.conf.targets[w.at].answers.errno);
      TryNextKept(w);
      match TryNext(w)
      case Pending(p) =>
      case Failed(f) =>
        CloseKept(f, phase);
        ConnectExhausts(NetClose(f).(phase := phase));
    }
  }

  lemma StepExhausts(w: World, ev: Event)
    requires Inv(w) && ExhaustedOrConnected(w) && !Aborts(ev)
    ensures ExhaustedOrConnected(Step(w, ev))
  {
    hide SetAfterRefused, SomeRefused, SocketsClosed, Connect;
    if Enabled(w, ev) && Waiting(w) {
      match ev
      case Fire(t) =>
        OneFired(w, t);
        GivenUp(w, w.timers - {t}, w.handler, Timeout);
        ConnectExhausts(NetClose(w.(timers := w.timers - {t}, eventh := None)).(phase := Timeout));
      case Notice =>
      case Writable(sockaddrOk, probe) =>
        var timers := Stale(w.timers, w.eventh);
          if !probe.Fine? {
          var phase := if probe.Bad? then SysErrorPhase(probe.errno) else RemoteError;
          GivenUp(w, timers, None, phase);
          ConnectExhausts(NetClose(w.(timers := timers, eventh := None, handler := None)).(phase := phase));
        }
    }
  }

  /** Unless the run loop breaks the wait, a failure is reported only after every address was tried. */
  lemma FailureMeansExhausted(conf: Conf, events: seq<Event>)
    requires FirstPends(conf) && forall i :: 0 <= i < |events| ==> !Aborts(events[i])
    ensures var w := After(conf, events);
      (w.freed && |w.told| == 1 && !w.told[0].0.Connected? ==> w.at == |conf.targets|)
  {
    StartWaits(conf);
    RunExhausts(TryNext(Initial(conf)).w, events);
    RunKept(TryNext(Initial(conf)).w, events);
    hide TryNext, Run;
  }

  lemma {:induction false} RunExhausts(w: World, events: seq<Event>)
    requires Inv(w) && ExhaustedOrConnected(w) && forall i :: 0 <= i < |events| ==> !Aborts(events[i])
    ensures ExhaustedOrConnected(Run(w, events))
    decreases |events|
  {
    if events != [] {
      hide Inv, Step, ExhaustedOrConnected;
      StepKept(w, events[0]);
      StepExhausts(w, events[0]);
      RunExhausts(Step(w, events[0]), events[1..]);
    }
  }
}
