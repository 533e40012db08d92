/**
  The connect state of lib/b_addrgroup.c with its fields updated in place, as its functions do.

  Each handler is called in a state that keeps the invariant of `Failover` and leaves one that
  does.  `RunConnect` takes an object through any events of the run loop, and says on its own
  fields what holds of it then.
*/
module ConnectState {
  import opened Failover
  import opened Options

  class Connector {
    const conf: Conf
    // struct addrgroup_state
    var sock: Option<Fd>
    var phase: Phase
    var eventh: Option<Timer>
    var callback: bool
    // the address that the remote netinfo has come to
    var at: nat
    var freed: bool
    // the run loop and the kernel, and whether a call has reached the freed state
    var misused: bool
    var timers: set<Timer>
    var handler: Option<Fd>
    var fds: nat
    var clocks: nat
    // what happened
    ghost var tried: seq<Addr>
    ghost var closed: seq<Fd>
    ghost var told: seq<(Phase, Option<Fd>)>

    ghost function Now(): World
      reads this
    {
      World(conf, sock, phase, eventh, callback, at, freed, timers, handler, fds, clocks, tried, closed, told, misused)
    }

    constructor (conf: Conf)
      ensures Now() == Initial(conf)
    {
      this.conf := conf;
      sock, phase, eventh, callback, at := None, SysError, None, conf.callback, 0;
      timers, handler, fds, clocks := {}, None, 0, 0;
      freed, tried, closed, told, misused := false, [], [], [], false;
    }

    /** net_close: afterwards there is no socket, and an attempt that failed can be followed by another. */
    method Close()
      modifies this
      ensures Now() == NetClose(old(Now())) && sock == None
      ensures old(Ready(Now())) ==> Ready(Now())
    {
      if Ready(Now()) {
        CloseKept(Now(), phase);
        hide Ready;
      }
      if sock == None {
        return;
      }
      handler := None;
      closed := closed + [sock.value];
      sock := None;
    }

    /** as_destroy */
    method Free()
      modifies this
      ensures Now() == Destroy(old(Now()))
    {
      hide Ready;
      if phase == Closing {
        return;
      }
      phase := Closing;
      if callback {
        told := told + [(Closing, None)];
      }
      if eventh.Some? {
        timers := timers - {eventh.value};
      }
      Close();
      freed := true;
    }

    /** net_init_end: one final callback, nothing open but what was handed over, and the state freed. */
    method Finish()
      requires Ending(Now())
      modifies this
      ensures Now() == End(old(Now())) && Over(Now())
    {
      hide Over, Ending;
      EndIsOver(Now());
      if callback {
        told := told + [(phase, sock)];
        callback := false;
        if phase == Connected {
          sock := None;
        }
      }
      Free();
    }

    /** The timer and the handler of a new attempt. */
    method Arm(a: Answers) returns (ok: bool)
      modifies this
      ensures var r := Watch(old(Now()), a); ok == r.Pending? && Now() == r.w
    {
      if conf.timeout {
        if !a.timerOk {
          return false;
        }
        timers, eventh, clocks := timers + {clocks}, Some(clocks), clocks + 1;
      } else {
        eventh := None;
      }
      if !a.handleOk {
        return false;
      }
      handler := sock;
      ok := true;
    }

    /** What is done with a new socket. */
    method Prepare(a: Answers) returns (ok: bool)
      modifies this
      ensures var r := Failover.Prepare(old(Now()), a); ok == r.Pending? && Now() == r.w
    {
      hide Watch;
      if !a.nonblockOk {
        return false;
      }
      if callback && !a.userOk {
        return false;
      }
      if conf.local && !a.bindOk {
        Close();
        return false;
      }
      if !a.sockaddrOk {
        return false;
      }
      if !a.connectOk {
        return false;
      }
      ok := Arm(a);
    }

    /** do_net_init_stream_connect up to its error label; `ok` is false where it jumps there. */
    method Attempt() returns (ok: bool)
      requires at < |conf.targets|
      modifies this
      ensures var r := TryNext(old(Now())); ok == r.Pending? && Now() == r.w
    {
      hide Failover.Prepare;
      var a := conf.targets[at].answers;
      tried := tried + [conf.targets[at].addr];
      at := at + 1;
      if !a.socketOk {
        return false;
      }
      sock := Some(fds);
      fds := fds + 1;
      ok := Prepare(a);
    }

    /** One attempt between two others: then the socket is waiting, or another address can be tried. */
    method Try() returns (ok: bool)
      requires Ready(Now()) && sock == None && at < |conf.targets|
      modifies this
      ensures var r := TryNext(old(Now())); ok == r.Pending? && Now() == r.w
      ensures if ok then Waiting(Now()) else Ready(Now()) && at == old(at) + 1
    {
      hide TryNext, Ready, Waiting;
      TryNextKept(Now());
      ok := Attempt();
    }

    /** do_net_init_stream_connect: a socket is waiting, or all is over. */
    method ConnectNext()
      requires Ready(Now()) && sock == None
      modifies this
      decreases |conf.targets| - at
      ensures Now() == Connect(old(Now())) && Inv(Now())
    {
      hide TryNext, End, Trying, Unfinished, Over;
      if at >= |conf.targets| {
        ReadyEnds(Now());
        Finish();
        return;
      }
      var errno := conf.targets[at].answers.errno;
      var ok := Try();
      if !ok {
        Close();
        ErrnoIsFailure(errno);
        PhaseKept(Now(), SysErrorPhase(errno));
        phase := SysErrorPhase(errno);
        ConnectNext();
      }
    }

    /** stream_connect_timeout, called by the run loop when timer `t` goes off. */
    method TimerFires(t: Timer)
      requires Waiting(Now()) && t in timers
      modifies this
      ensures Now() == OnTimeout(old(Now()), t) && Inv(Now())
    {
      hide Connect, SocketsClosed, TriedInOrder, SetAfterRefused, SomeRefused, TimersKept;
      OneFired(Now(), t);
      GivenUp(Now(), timers - {t}, handler, Timeout);
      timers := timers - {t};
      eventh := None;
      GiveUp(Timeout);
    }

    /** stream_connect_activity */
    method Activity(ev: Event)
      requires Waiting(Now()) && !ev.Fire?
      modifies this
      ensures Now() == Step(old(Now()), ev) && Inv(Now())
    {
      hide Connect, End, OnWritable, SocketsClosed, TriedInOrder, SetAfterRefused, SomeRefused, TimersKept;
      if ev.Broken? {
        Finish();
        return;
      }
      if ev.Notice? {
        return;
      }
      Writable(ev.sockaddrOk, ev.probe);
    }

    /** The rest of it, for a writable socket. */
    method Writable(sockaddrOk: bool, probe: Probe)
      requires Waiting(Now())
      modifies this
      ensures Now() == OnWritable(old(Now()), sockaddrOk, probe) && Inv(Now())
    {
      hide Connect, End, Ending, Over, Ready, Waiting, SysErrorPhase, Withdrawn, NetClose;
      WritableEnds(Now());
      GivenUpWritable(Now(), probe);
      Withdraw();
      if !sockaddrOk {
        Finish();
        return;
      }
      match probe
      case SecondRefused => GiveUp(RemoteError);
      case Bad(e) => GiveUp(SysErrorPhase(e));
      case Fine =>
        phase := Connected;
        Finish();
    }

    method Withdraw()
      modifies `timers, `eventh, `handler
      ensures Now() == Withdrawn(old(Now()))
    {
      if eventh.Some? {
        timers := timers - {eventh.value};
      } else {
        assert timers - {} == timers;
      }
      eventh := None;
      handler := None;
    }

    /** This address has failed: its socket is closed, and the next one is tried. */
    method GiveUp(failure: Phase)
      requires Ready(NetClose(Now()).(phase := failure))
      modifies this
      ensures Now() == Connect(NetClose(old(Now())).(phase := failure)) && Inv(Now())
    {
      hide Ready, Connect;
      Close();
      phase := failure;
      ConnectNext();
    }

    /** The run loop: the events that can happen are delivered; one that reaches a freed state is the last. */
    method Serve(events: seq<Event>)
      requires Inv(Now())
      modifies this
      ensures Now() == Run(old(Now()), events) && Inv(Now())
    {
      hide Waiting, Over, Connect, End, OnWritable, OnTimeout;
      var n := 0;
      while n < |events|
        invariant n <= |events| && Inv(Now())
        invariant Run(Now(), events[n..]) == Run(old(Now()), events)
      {
        var ev := events[n];
        ghost var w := Now();
        assert events[n..][0] == ev && events[n..][1..] == events[n + 1..];
        WaitingOrFreed(w);
        StepKept(w, ev);
        if !misused && (if ev.Fire? then ev.timer in timers else handler.Some?) {
          if freed {
            misused := true;
          } else if ev.Fire? {
            TimerFires(ev.timer);
          } else {
            Activity(ev);
          }
        }
        assert Now() == Step(w, ev);
        n := n + 1;
      }
    }
  }

  lemma WaitingOrFreed(w: World)
    requires Inv(w)
    ensures if w.freed then Over(w) else Waiting(w)
  {
  }

  lemma ReadyEnds(w: World)
    requires Ready(w)
    ensures Ending(w)
  {
  }

  lemma PhaseKept(w: World, phase: Phase)
    requires Ready(w) && !phase.Connected? && !phase.Closing?
    ensures Ready(w.(phase := phase))
  {
  }

  /** The state that a writable socket leaves, about to end. */
  lemma WritableEnds(w: World)
    requires Waiting(w)
    ensures Ending(Withdrawn(w)) && Ending(Withdrawn(w).(phase := Connected))
  {
    hide SocketsClosed, TriedInOrder, SetAfterRefused, SomeRefused;
  }

  /** The state that it leaves for the next address, if the second connect did not go well. */
  lemma GivenUpWritable(w: World, probe: Probe)
    requires Waiting(w)
    ensures probe.SecondRefused? ==> Ready(NetClose(Withdrawn(w)).(phase := RemoteError))
    ensures probe.Bad? ==> Ready(NetClose(Withdrawn(w)).(phase := SysErrorPhase(probe.errno)))
  {
    hide SocketsClosed, TriedInOrder, SetAfterRefused, SomeRefused;
    if probe.Bad? {
      ErrnoIsFailure(probe.errno);
      GivenUp(w, Stale(w.timers, w.eventh), None, SysErrorPhase(probe.errno));
    } else {
      GivenUp(w, Stale(w.timers, w.eventh), None, RemoteError);
    }
  }

  /**
    A connect from its first attempt, pending, through any events.  Its addresses have been tried in
    the order of the list; it has called back finally once if it is freed and not before; no socket
    has been closed twice, and all are closed but the one waiting or handed over; a freed state has
    no handler, and has a timer, or has been called, only if one was set after a refusal.
  */
  method RunConnect(conf: Conf, events: seq<Event>) returns (c: Connector)
    requires FirstPends(conf)
    ensures c.conf == conf && c.Now() == After(conf, events)
    ensures |c.tried| <= |conf.targets| && forall i :: 0 <= i < |c.tried| ==> c.tried[i] == conf.targets[i].addr
    ensures |c.told| == (if c.freed && conf.callback then 1 else 0)
    ensures forall i, j :: 0 <= i < j < |c.closed| ==> c.closed[i] != c.closed[j]
    ensures !c.freed ==> c.sock.Some? && c.handler == c.sock
    ensures c.freed ==> c.handler == None
    ensures forall fd: Fd :: fd < c.fds ==>
      (fd in c.closed <==> Some(fd) != (if c.freed then HandedOver(c.Now()) else c.sock))
    ensures c.at <= |conf.targets| && (c.freed ==> (c.timers == {} <==> !SetAfterRefused(conf, c.at)))
    ensures c.misused ==> c.freed && SetAfterRefused(conf, c.at)
  {
    StartWaits(conf);
    RunKept(TryNext(Initial(conf)).w, events);
    FailoverIsSafe(conf, events);
    hide TryNext, Run, SetAfterRefused, SomeRefused;
    c := new Connector(conf);
    InitialReady(conf);
    var ok := c.Try();
    c.Serve(events);
  }
}
