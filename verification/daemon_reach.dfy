/**
  Every run of the alarm machine without client timeouts is one that the daemon can show: a client
  connects and speaks at the very moment of each command.
 */
module DaemonReach {
  import opened Options
  import opened AlarmModel
  import AI = AlarmInvariants
  import opened SessionModel
  import opened ListenerModel
  import opened RpcModel
  import opened DaemonModel

  // ---- What a client and the operating system can do ----

  /** There is always a descriptor that is not open. */
  lemma {:induction false} NewDescriptor(used: set<int>) returns (fd: int)
    ensures fd >= 0
    ensures forall x :: x in used ==> x < fd
  {
    fd := 0;
    if y :| y in used {
      fd := NewDescriptor(used - {y});
      if fd <= y {
        fd := y + 1;
      }
      assert forall x :: x in used ==> x == y || x in used - {y};
    }
  }

  /** A request that is understood as a given command. */
  function RequestFor(c: Command): (data: string)
    ensures data != []
  {
    if c.UnknownCommand? then "?" else TextOf(c)
  }

  lemma NoCommand(line: string, c: Command)
    requires (line != [] ==> line[0] == '?') && !c.UnknownCommand?
    ensures Decode(line) != c
  {
    hide TextOf, Decode;
    TextPlain(c);
    DecodeExactly(line, c);
  }

  lemma UnknownStays(data: string)
    requires data != [] && data[0] == '?'
    ensures Decode(RequestLine(data)) == UnknownCommand
  {
    var line := RequestLine(data);
    assert line <= data;
    hide RequestLine, Decode;
    forall c: Command | !c.UnknownCommand?
      ensures Decode(line) != c
    {
      NoCommand(line, c);
    }
  }

  lemma RequestUnderstood(c: Command)
    ensures Decode(RequestLine(RequestFor(c))) == c
  {
    if c.UnknownCommand? {
      UnknownStays("?");
    } else {
      hide Decode, RequestLine, TextOf;
      CommandUnderstood(c, TextOf(c));
    }
  }

  // ---- One event ----

  /** No client is connected, and nothing has happened since the last event of the alarm. */
  predicate Idle(d: Daemon) {
    && d.now == d.alarm.now
    && d.net.listenMax > 0
    && forall k :: 0 <= k < |d.net.slots| ==> d.net.slots[k].sd == -1
  }

  /** What happens at the moment of an event of the alarm, apart from a client that connects first. */
  function InputFor(a: Action): Input
    requires !a.RpcTimeout?
  {
    match a
    case Poll(r) => PollFires(r)
    case SecondTimer => SecondFires
    case Rpc(c) => Speaks(0, RequestFor(c))
    case Terminate => Signalled(Term)
  }

  lemma InputMeans(a: Action)
    requires !a.RpcTimeout?
    ensures Meaning(InputFor(a)) == Some(a)
  {
    hide Decode, RequestLine, RequestFor;
    if a.Rpc? {
      RequestUnderstood(a.command);
    }
  }

  lemma TimersHappen(p: Params, rpcTimeout: nat, d: Daemon, e: Event)
    requires DaemonModel.Inv(p, d) && Enabled(d.alarm, e) && (e.act.Poll? || e.act.SecondTimer?)
    requires Idle(d)
    ensures var m := Moment(e.at, InputFor(e.act));
            CanHappen(d, m) && Idle(Next(p, rpcTimeout, d, m)) && SeenAs(m) == [e]
  {
    InputMeans(e.act);
    AI.StepLaunches(p, d.alarm, e);
    hide Step, RequestFor;
  }

  lemma SignalHappens(p: Params, rpcTimeout: nat, d: Daemon, e: Event)
    requires DaemonModel.Inv(p, d) && Enabled(d.alarm, e) && e.act.Terminate?
    requires Idle(d)
    ensures var m := Moment(e.at, InputFor(e.act));
            CanHappen(d, m) && Idle(Next(p, rpcTimeout, d, m)) && SeenAs(m) == [e]
  {
    InputMeans(e.act);
    AI.StepLaunches(p, d.alarm, e);
    StopDrains(d.net);
    hide Step, RequestFor, SessionModel.Inv;
  }

  /** One client is connected, in slot 0. */
  predicate Talking(d: Daemon) {
    && d.net.listenMax > 0
    && |d.net.slots| == SLOTS
    && d.net.slots[0].sd != -1
    && forall k :: 0 < k < SLOTS ==> d.net.slots[k].sd == -1
  }

  lemma ConnectHappens(p: Params, rpcTimeout: nat, d: Daemon, at: Time) returns (m: Moment)
    requires DaemonModel.Inv(p, d) && d.alarm.running && Idle(d) && d.now <= at
    ensures CanHappen(d, m) && SeenAs(m) == []
    ensures var d' := Next(p, rpcTimeout, d, m); d'.now == at && d'.alarm == d.alarm && Talking(d')
  {
    var fd := NewDescriptor(Open(d.net));
    m := Moment(at, Connects(0, Succeeds(fd)));
    hide Open;
  }

  lemma CommandHappens(p: Params, rpcTimeout: nat, d: Daemon, e: Event)
    requires DaemonModel.Inv(p, d) && Enabled(d.alarm, e) && e.act.Rpc?
    requires Talking(d) && d.now == e.at
    ensures var m := Moment(e.at, InputFor(e.act));
            CanHappen(d, m) && Idle(Next(p, rpcTimeout, d, m)) && SeenAs(m) == [e]
  {
    InputMeans(e.act);
    AI.StepLaunches(p, d.alarm, e);
    assert SlotInv(d.net.slots[0]);
    assert Listening(d.net, 0) && Shaped(d.net);
    hide Step, RequestFor, Decode, RequestLine, DaemonModel.Inv, Listening, Shaped;
  }

  // ---- Whole runs ----

  lemma ExtendRun(p: Params, rpcTimeout: nat, x: Entry, ds: seq<Daemon>, ms: seq<Moment>, m: Moment)
    returns (ds': seq<Daemon>, ms': seq<Moment>)
    requires IsRunFrom(p, rpcTimeout, x, ds, ms) && CanHappen(ds[|ms|], m)
    ensures IsRunFrom(p, rpcTimeout, x, ds', ms')
    ensures ds'[|ms'|] == Next(p, rpcTimeout, ds[|ms|], m)
    ensures Seen(ms') == Seen(ms) + SeenAs(m)
  {
    ds', ms' := ds + [Next(p, rpcTimeout, ds[|ms|], m)], ms + [m];
    AppendStep(p, rpcTimeout, ds, ms, m, ds'[|ms'|]);
    hide IsRun, Enters, Entered, SeenAs, CanHappen, Next;
    assert ms'[..|ms|] == ms;
  }

  lemma AppendStep(p: Params, rpcTimeout: nat, ds: seq<Daemon>, ms: seq<Moment>, m: Moment, d: Daemon)
    requires IsRun(p, rpcTimeout, ds, ms)
    requires CanHappen(ds[|ms|], m) && d == Next(p, rpcTimeout, ds[|ms|], m)
    ensures IsRun(p, rpcTimeout, ds + [d], ms + [m])
  {
    hide CanHappen, Next;
  }

  lemma EntersIdle(p: Params, rpcTimeout: nat, x: Entry) returns (ds: seq<Daemon>)
    requires Enters(x)
    ensures |ds| == 1 && IsRunFrom(p, rpcTimeout, x, ds, []) && Idle(ds[0]) && Seen([]) == []
  {
    ds := [Entered(x)];
    hide Sockets, Changes, FreshSockets;
  }

  /** The last state of a run that the alarm machine sees as `es`. */
  lemma LastOfRun(p: Params, rpcTimeout: nat, x: Entry, ds: seq<Daemon>, ms: seq<Moment>)
    requires IsRunFrom(p, rpcTimeout, x, ds, ms)
    ensures |ds| == |ms| + 1
    ensures DaemonModel.Inv(p, ds[|ms|]) && Feasible(p, Initial(x.at), Seen(ms))
    ensures ds[|ms|].alarm == After(p, Initial(x.at), Seen(ms))
  {
    RunsOfTheDaemon(p, rpcTimeout, x, ds, ms, |ms|);
    hide *;
    assert ms[..|ms|] == ms;
  }

  /** A run is continued by an event of the alarm. */
  lemma ShowNext(p: Params, rpcTimeout: nat, x: Entry, ds: seq<Daemon>, ms: seq<Moment>, e: Event)
    returns (ds': seq<Daemon>, ms': seq<Moment>)
    requires IsRunFrom(p, rpcTimeout, x, ds, ms) && Idle(ds[|ms|])
    requires Enabled(ds[|ms|].alarm, e) && !e.act.RpcTimeout?
    ensures IsRunFrom(p, rpcTimeout, x, ds', ms') && Idle(ds'[|ms'|])
    ensures Seen(ms') == Seen(ms) + [e]
  {
    hide IsRunFrom, DaemonModel.Inv, CanHappen, Next, Seen, SeenAs, InputFor;
    LastOfRun(p, rpcTimeout, x, ds, ms);
    ds', ms' := ds, ms;
    if e.act.Rpc? {
      var m := ConnectHappens(p, rpcTimeout, ds[|ms|], e.at);
      ds', ms' := ExtendRun(p, rpcTimeout, x, ds, ms, m);
      LastOfRun(p, rpcTimeout, x, ds', ms');
      CommandHappens(p, rpcTimeout, ds'[|ms'|], e);
    } else if e.act.Terminate? {
      SignalHappens(p, rpcTimeout, ds[|ms|], e);
    } else {
      TimersHappen(p, rpcTimeout, ds[|ms|], e);
    }
    ds', ms' := ExtendRun(p, rpcTimeout, x, ds', ms', Moment(e.at, InputFor(e.act)));
    assert Seen(ms) + [] == Seen(ms);
  }

  lemma {:induction false} Show(p: Params, rpcTimeout: nat, x: Entry, es: seq<Event>)
    returns (ds: seq<Daemon>, ms: seq<Moment>)
    requires Enters(x) && Feasible(p, Initial(x.at), es) && AI.Prompt(es)
    ensures IsRunFrom(p, rpcTimeout, x, ds, ms) && Idle(ds[|ms|]) && Seen(ms) == es
  {
    hide IsRunFrom, Enters, Entered, Idle, Enabled, Seen, Step, Initial;
    if es == [] {
      ms := [];
      ds := EntersIdle(p, rpcTimeout, x);
    } else {
      var n := |es| - 1;
      ds, ms := Show(p, rpcTimeout, x, es[..n]);
      LastOfRun(p, rpcTimeout, x, ds, ms);
      ds, ms := ShowNext(p, rpcTimeout, x, ds, ms, es[n]);
    }
  }

  ghost predicate Shows(
      p: Params, rpcTimeout: nat, x: Entry, ds: seq<Daemon>, ms: seq<Moment>, es: seq<Event>) {
    IsRunFrom(p, rpcTimeout, x, ds, ms) && Seen(ms) == es
  }

  /**
    Without timeouts, the runs of the alarm machine are exactly what the runs of the daemon show:
    nothing that holds of all of the latter is lost by proving it of the former.
   */
  lemma ShownExactly(p: Params, rpcTimeout: nat, x: Entry, es: seq<Event>)
    requires Enters(x) && AI.Prompt(es)
    ensures (exists ds, ms :: Shows(p, rpcTimeout, x, ds, ms, es)) <==> Feasible(p, Initial(x.at), es)
  {
    hide IsRunFrom, Enters, Seen, Feasible, Initial;
    if ds, ms :| Shows(p, rpcTimeout, x, ds, ms, es) {
      LastOfRun(p, rpcTimeout, x, ds, ms);
    }
    if Feasible(p, Initial(x.at), es) {
      var ds, ms := Show(p, rpcTimeout, x, es);
      assert Shows(p, rpcTimeout, x, ds, ms, es);
    }
  }

  /** A run that leaves the daemon running with its alarm in control state `c`. */
  ghost predicate Reaches(
      p: Params, rpcTimeout: nat, x: Entry, ds: seq<Daemon>, ms: seq<Moment>, c: AI.Control) {
    && IsRunFrom(p, rpcTimeout, x, ds, ms)
    && ds[|ms|].alarm.running
    && AI.ControlOf(ds[|ms|].alarm) == c
  }

  /** The control states that the daemon reaches are exactly the allowed ones. */
  lemma DaemonReachesExactly(p: Params, rpcTimeout: nat, x: Entry, c: AI.Control)
    requires Enters(x)
    ensures (exists ds, ms :: Reaches(p, rpcTimeout, x, ds, ms, c)) <==> AI.Allowed(p, c)
  {
    hide IsRunFrom, Enters, Seen, Feasible, Initial, AI.ControlOf, AI.Allowed;
    if ds, ms :| Reaches(p, rpcTimeout, x, ds, ms, c) {
      LastOfRun(p, rpcTimeout, x, ds, ms);
      assert AI.Witnesses(p, x.at, Seen(ms), c);
      AI.ReachableExactly(p, x.at, c);
    }
    if AI.Allowed(p, c) {
      var run := AI.Construct(p, x.at, c);
      var ds, ms := Show(p, rpcTimeout, x, run);
      LastOfRun(p, rpcTimeout, x, ds, ms);
      assert Reaches(p, rpcTimeout, x, ds, ms, c);
    }
  }
}
