/** The daemon object: how `main` wires the parts together, and the callbacks of the event loop. */
module Ids {
  import opened Options
  import opened AlarmModel
  import opened Alarm
  import opened SessionModel
  import opened ListenerModel
  import opened RpcModel
  import opened TcpServer
  import opened Rpc
  import opened DaemonModel
  import opened DaemonRuns
  import ConfigModel
  import opened ConfigKeys
  import opened Stdio
  import opened LineReader
  import opened Config

  /** The alarm settings of a configuration in range are settings the alarm accepts. */
  lemma SettingsInRange(c: ConfigModel.Values)
    requires ConfigModel.InRange(c)
    ensures Settings(c.alertThreshold, c.pollInterval, c.cancelWaitTime).InRange()
    ensures 5 <= c.rpcTimeout <= 3600
  {
    assert ConfigModel.Get(c, ConfigModel.AlertThreshold).number == c.alertThreshold;
    assert ConfigModel.Get(c, ConfigModel.PollInterval).number == c.pollInterval;
    assert ConfigModel.Get(c, ConfigModel.CancelWaitTime).number == c.cancelWaitTime;
    assert ConfigModel.Get(c, ConfigModel.RpcTimeout).number == c.rpcTimeout;
  }

  /** Whatever the configuration file says, the settings the daemon runs with are in range. */
  lemma ParsedInRange(pieces: seq<string>)
    ensures ConfigModel.InRange(ConfigModel.Parse(ConfigModel.DEFAULTS, pieces).values)
  {
    ConfigModel.ParseKeepsRange(ConfigModel.DEFAULTS, pieces);
  }

  lemma SignalStep(p: Params, rpcTimeout: nat, d: Daemon, t: Time, s: Signal)
    requires Shaped(d.net)
    ensures var a := d.alarm.(now := t, running := false, pollAt := None, secondAt := None,
                              processing := false, status := NO_ALERT);
            Next(p, rpcTimeout, d, Moment(t, Signalled(s))) == Daemon(t, a, SessionModel.Stop(d.net), {})
  {
    hide SessionModel.Stop;
  }

  lemma AcceptTakes(n: Net, i: nat, attempt: Attempt, deadline: nat)
    requires Shaped(n) && i < LISTEN_LIMIT
    requires attempt.AcceptFails? || attempt.fd >= 0
    ensures var n' := SessionModel.Accept(n, i, attempt, deadline);
            && |n'.slots| == SLOTS
            && forall s :: 0 <= s < SLOTS && n.slots[s].sd == -1 && n'.slots[s].sd != -1 ==>
                 n'.slots[s].event == Some(deadline)
  {
  }

  class Ids {
    const alert: Alert
    const sensor: Sensor
    const rpc: Rpc
    var hupEvent: bool
    var termEvent: bool
    var intEvent: bool
    /** When the last event, and the last event that matters to the alarm, were dispatched. */
    ghost var now: Time
    ghost var alarmNow: Time

    ghost predicate Valid()
      reads this, sensor, rpc, rpc.server
    {
      && rpc.alert == sensor.alert == alert
      && rpc.sensor == sensor
      && rpc.Valid()
      && rpc.rpcTimeout >= 0
    }

    ghost function Repr(): set<object>
    {
      {this, sensor, sensor.alert} + rpc.server.Repr()
    }

    ghost function Handlers(): set<Signal>
      reads this
    {
      (if hupEvent then {Hup} else {}) +
      (if termEvent then {Term} else {}) +
      (if intEvent then {Int} else {})
    }

    ghost function View(): Daemon
      reads Repr()
    {
      Daemon(now, sensor.View(alarmNow, hupEvent), rpc.server.View(), Handlers())
    }

    /** Creates the parts from a configuration, registers the signals and starts the sensor. */
    constructor (config: Config, now: Time, pipe: Pipe)
      requires ConfigModel.InRange(config.View())
      ensures Valid() && fresh(Repr())
      ensures sensor.Params()
              == Settings(config.alertThreshold, config.pollInterval, config.cancelWaitTime)
      ensures rpc.rpcTimeout == config.rpcTimeout
      ensures rpc.server.pipe == pipe && hupEvent && termEvent && intEvent
      ensures View() == Daemon(now, Initial(now), Created(pipe), SIGNALS)
    {
      hide Created, ConfigModel.InRange;
      SettingsInRange(config.View());
      var a := new Alert(config.cancelWaitTime);
      var s := new Sensor(a, config.pollInterval, config.alertThreshold);
      var server := new TcpServer(pipe);
      alert := a;
      sensor := s;
      rpc := new Rpc(a, s, server, config.rpcTimeout);
      hupEvent, termEvent, intEvent := true, true, true;
      this.now := now;
      this.alarmNow := now;
      new;
      s.Start(now);
      assert s.View(now, true) == Initial(now);
      assert Handlers() == SIGNALS;
    }

    /** Starts the server; the event loop is entered unless there is no port or no listener. */
    method Start(port: string, cs: seq<Candidate>) returns (entered: bool, ghost n: nat)
      requires Valid() && View().net == Created(rpc.server.pipe)
      modifies rpc.server.Repr()
      ensures Valid()
      ensures port == "" ==> !entered && View() == old(View())
      ensures port != "" ==>
                && Examines(cs, n)
                && View() == old(View()).(net := Started(rpc.server.pipe, cs, n))
                && (entered <==> Sockets(cs[..n]) != [])
      ensures entered <==> port != "" &&
                           exists k :: 0 <= k < |cs| && cs[k].socket >= 0
                             && (cs[k].inet6 ==> cs[k].v6only >= 0) && cs[k].reuse == 0
                             && cs[k].recvbuf >= 0 && cs[k].bound >= 0 && cs[k].listening >= 0
    {
      hide Started, Created, Sockets;
      entered, n := rpc.server.Start(port, cs);
    }

    /** Unregisters everything: the signals, the second alert and the poll, then the server. */
    method Unregister(ghost at: Time)
      requires Valid()
      modifies this, alert, sensor, rpc.server.Repr()
      ensures Valid() && Handlers() == {} && !hupEvent
      ensures sensor.View(at, false)
              == old(sensor.View(at, false)).(pollAt := None, secondAt := None, processing := false,
                                              status := NO_ALERT)
      ensures rpc.server.View() == SessionModel.Stop(old(rpc.server.View()))
    {
      hide SessionModel.Stop, Shaped;
      hupEvent := false;
      termEvent := false;
      intEvent := false;
      alert.Cancel();
      sensor.Finish();
      rpc.Finish();
    }

    /** A signal arrives. */
    method Terminate(at: Time, s: Signal)
      requires Valid() && Shaped(View().net)
      modifies Repr()
      ensures Valid()
      ensures View() == Next(sensor.Params(), rpc.rpcTimeout, old(View()), Moment(at, Signalled(s)))
    {
      SignalStep(sensor.Params(), rpc.rpcTimeout, View(), at, s);
      hide SessionModel.Stop, Next, Shaped;
      Unregister(at);
      now, alarmNow := at, at;
    }

    method OnPoll(at: Time, reading: Reading)
      requires Valid() && Shaped(View().net)
      modifies Repr()
      ensures Valid()
      ensures View() == Next(sensor.Params(), rpc.rpcTimeout, old(View()), Moment(at, PollFires(reading)))
    {
      hide Step;
      LastTimeIrrelevant(sensor.Params(), View().alarm, at, Event(at, Poll(reading)), UnknownCommand);
      sensor.Polling(at, reading, hupEvent);
      now, alarmNow := at, at;
    }

    method OnSecond(at: Time)
      requires Valid() && Shaped(View().net)
      modifies Repr()
      ensures Valid()
      ensures View() == Next(sensor.Params(), rpc.rpcTimeout, old(View()), Moment(at, SecondFires))
    {
      alert.StartSecond(at);
      now, alarmNow := at, at;
    }

    method OnConnect(at: Time, i: nat, attempt: Attempt)
      requires Valid() && Shaped(View().net) && i < LISTEN_LIMIT
      requires attempt.AcceptFails? || attempt.fd >= 0
      modifies Repr()
      ensures Valid()
      ensures View() == Next(sensor.Params(), rpc.rpcTimeout, old(View()), Moment(at, Connects(i, attempt)))
      ensures forall s :: 0 <= s < SLOTS && old(View().net).slots[s].sd == -1 && View().net.slots[s].sd != -1 ==>
                View().net.slots[s].event == Some(at + rpc.rpcTimeout * 1_000_000)
    {
      AcceptTakes(View().net, i, attempt, at + rpc.rpcTimeout * 1_000_000);
      hide SessionModel.Accept;
      rpc.server.Accept(i, attempt, at + rpc.rpcTimeout * 1_000_000);
      now := at;
    }

    method OnRead(at: Time, k: nat, data: string) returns (answer: Option<string>)
      requires Valid() && Shaped(View().net) && Listening(View().net, k)
      modifies Repr()
      ensures Valid()
      ensures var m := Moment(at, if data == [] then HangsUp(k) else Speaks(k, data));
              && View() == Next(sensor.Params(), rpc.rpcTimeout, old(View()), m)
              && answer == Answer(old(View()), m)
      ensures data != [] ==> Served(data, old(View().alarm), at, View().alarm, answer)
    {
      RequestServed(data, View().alarm, at);
      hide Obey, Reply, Decode, RequestLine, Served;
      ghost var c := Decode(RequestLine(data));
      LastTimeIrrelevant(sensor.Params(), View().alarm, at, Event(at, AlarmModel.Rpc(c)), c);
      ghost var when := if data == [] then alarmNow else at;
      answer := rpc.AcceptRead(k, data, when, hupEvent);
      now, alarmNow := at, when;
    }

    method OnTimeout(at: Time, k: nat) returns (answer: Option<string>)
      requires Valid() && Shaped(View().net) && Listening(View().net, k)
      modifies Repr()
      ensures Valid()
      ensures View() == Next(sensor.Params(), rpc.rpcTimeout, old(View()), Moment(at, Expires(k)))
      ensures answer == Answer(old(View()), Moment(at, Expires(k)))
    {
      answer := rpc.AcceptTimeout(k);
      now, alarmNow := at, at;
    }

    /** The event loop dispatches one event to its callback. */
    method Dispatch(m: Moment) returns (answer: Option<string>)
      requires Valid() && DaemonModel.Inv(sensor.Params(), View()) && CanHappen(View(), m)
      modifies Repr()
      ensures Valid()
      ensures View() == Next(sensor.Params(), rpc.rpcTimeout, old(View()), m)
      ensures answer == Answer(old(View()), m)
    {
      ghost var d := View();
      RegisteredWhileRunning(d.net);
      hide SessionModel.Inv, Next, Valid, View;
      answer := None;
      match m.input {
        case PollFires(reading) => OnPoll(m.at, reading);
        case SecondFires => OnSecond(m.at);
        case Connects(i, attempt) => OnConnect(m.at, i, attempt);
        case Speaks(k, data) => answer := OnRead(m.at, k, data);
        case HangsUp(k) => answer := OnRead(m.at, k, []);
        case Expires(k) => answer := OnTimeout(m.at, k);
        case Signalled(s) => Terminate(m.at, s);
      }
    }

    /**
      The event loop dispatches the events of a run, one after the other. The client that causes an
      event gets its answer, the daemon keeps its promises, and only a signal ends the loop.
     */
    method Loop(ms: seq<Moment>, ghost x: Entry, ghost ds: seq<Daemon>)
      returns (answers: seq<Option<string>>)
      requires Valid() && IsRunFrom(sensor.Params(), rpc.rpcTimeout, x, ds, ms) && View() == ds[0]
      modifies Repr()
      ensures Valid() && View() == ds[|ms|]
      ensures |answers| == |ms| && forall i :: 0 <= i < |ms| ==> answers[i] == Answer(ds[i], ms[i])
      ensures Promised(sensor.Params(), x.at, Seen(ms), View().alarm)
      ensures (exists m :: CanHappen(View(), m)) <==> View().alarm.running
    {
      ghost var p, timeout := sensor.Params(), rpc.rpcTimeout;
      RunLength(p, timeout, x, ds, ms);
      hide *;
      answers := [];
      for i := 0 to |ms|
        invariant Valid() && View() == ds[i]
        invariant |answers| == i && forall k :: 0 <= k < i ==> answers[k] == Answer(ds[k], ms[k])
      {
        StepOfRun(p, timeout, x, ds, ms, i);
        RunsOfTheDaemon(p, timeout, x, ds, ms, i);
        var answer := Dispatch(ms[i]);
        answers := answers + [answer];
      }
      EndOfRun(p, timeout, x, ds, ms);
    }
  }

  /**
    How the host answers while the daemon starts: whether it can go into the background, make its pid
    file and open the sensor, what `pipe` returns, and the address candidates with their sockets.
   */
  datatype Host = Host(
    detached: bool,
    pidFile: bool,
    device: bool,
    pipe: Option<Pipe>,
    candidates: seq<Candidate>)

  /** The daemon runs with what its configuration file says. */
  ghost predicate RunsWith(ids: Ids, c: ConfigModel.Values, x: Entry)
    reads ids, ids.sensor, ids.rpc, ids.rpc.server, ids.Repr()
  {
    && ids.Valid()
    && ids.sensor.Params() == Settings(c.alertThreshold, c.pollInterval, c.cancelWaitTime)
    && ids.rpc.rpcTimeout == c.rpcTimeout
    && Examines(x.candidates, x.examined) && x.Kept() != []
    && ids.View() == Entered(x)
    && (Honest(x) ==> DaemonModel.Inv(ids.sensor.Params(), ids.View()))
  }

  /** From a configuration to the event loop; null if it is not entered. */
  method Launch(config: Config, now: Time, host: Host) returns (ids: Ids?)
    requires ConfigModel.InRange(config.View())
    ensures var cs := host.candidates;
            && (ids != null
                <==> && host.detached && host.pidFile && host.device && host.pipe.Some?
                     && config.rpcPort != ""
                     && exists k :: 0 <= k < |cs| && cs[k].socket >= 0
                          && (cs[k].inet6 ==> cs[k].v6only >= 0) && cs[k].reuse == 0
                          && cs[k].recvbuf >= 0 && cs[k].bound >= 0 && cs[k].listening >= 0)
            && (ids != null ==>
                  fresh(ids.Repr()) && exists n :: RunsWith(ids, config.View(), Entry(now, host.pipe.value, cs, n)))
    ensures ids != null ==>
              forall s: Signal, t: Time :: t >= now ==> CanHappen(ids.View(), Moment(t, Signalled(s)))
  {
    hide ConfigModel.InRange, Created, Started, Sockets;
    if !host.detached || !host.pidFile || !host.device || host.pipe.None? {
      return null;
    }
    ids := new Ids(config, now, host.pipe.value);
    var entered, n := ids.Start(config.rpcPort, host.candidates);
    if !entered {
      return null;
    }
    ghost var x := Entry(now, host.pipe.value, host.candidates, n);
    EntryHandlesSignals(x);
    if Honest(x) {
      EnteredInv(ids.sensor.Params(), x);
    }
    hide CanHappen;
    assert RunsWith(ids, config.View(), x);
  }

  /**
    `main` up to the event loop: the defaults, the configuration file, and the daemon built from
    them. `file` is null if it cannot be opened; the result is null if the loop is not entered.
   */
  method Boot(file: InputFile?, now: Time, host: Host) returns (ids: Ids?)
    requires file != null ==> file.Valid()
    modifies file
    ensures file == null ==> ids == null
    ensures file != null ==>
              var parsed := ConfigModel.Parse(ConfigModel.DEFAULTS, Pieces(old(file.Rest()), ROOM));
              var cs := host.candidates;
              && (ids != null
                  <==> && parsed.ok
                       && host.detached && host.pidFile && host.device && host.pipe.Some?
                       && parsed.values.rpcPort != ""
                       && exists k :: 0 <= k < |cs| && cs[k].socket >= 0
                            && (cs[k].inet6 ==> cs[k].v6only >= 0) && cs[k].reuse == 0
                            && cs[k].recvbuf >= 0 && cs[k].bound >= 0 && cs[k].listening >= 0)
              && (ids != null ==>
                    fresh(ids.Repr()) && exists n :: RunsWith(ids, parsed.values, Entry(now, host.pipe.value, cs, n)))
    ensures file != null && ids != null ==>
              && (old(file.Rest()) == "" ==>
                    ids.sensor.Params() == Settings(12, 5000, 60) && ids.rpc.rpcTimeout == 60)
              && forall s: Signal, t: Time :: t >= now ==> CanHappen(ids.View(), Moment(t, Signalled(s)))
  {
    if file == null {
      return null;
    }
    var config := new Config(ConfigModel.DEFAULTS);
    ghost var pieces := Pieces(file.Rest(), ROOM);
    ParsedInRange(pieces);
    EmptyFile();
    hide ConfigModel.InRange, ConfigModel.Parse, Pieces, CanHappen;
    var ok := config.Parse(file);
    if !ok {
      return null;
    }
    ids := Launch(config, now, host);
  }

  lemma EntryHandlesSignals(x: Entry)
    requires x.examined <= |x.candidates| && |x.Kept()| <= LISTEN_LIMIT
    ensures forall s: Signal, t: Time :: t >= x.at ==> CanHappen(Entered(x), Moment(t, Signalled(s)))
  {
    forall s: Signal, t: Time | t >= x.at
      ensures CanHappen(Entered(x), Moment(t, Signalled(s)))
    {
      match s {
        case Hup =>
        case Term =>
        case Int =>
      }
    }
  }
}
