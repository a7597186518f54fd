/**
  The whole daemon as a transition system: the alarm machine, the session table and the signal
  handlers, driven by the events that a single-threaded event loop dispatches.
 */
module DaemonModel {
  import opened Options
  import opened AlarmModel
  import AI = AlarmInvariants
  import opened SessionModel
  import opened ListenerModel
  import opened RpcModel

  datatype Signal = Hup | Term | Int

  datatype Input =
    | PollFires(reading: Reading)
    | SecondFires
    | Connects(listener: nat, attempt: Attempt)
    | Speaks(slot: nat, data: string)
    | HangsUp(slot: nat)
    | Expires(slot: nat)
    | Signalled(signal: Signal)

  datatype Moment = Moment(at: Time, input: Input)

  datatype Daemon = Daemon(now: Time, alarm: State, net: Net, handlers: set<Signal>)

  const SIGNALS: set<Signal> := {Hup, Term, Int}

  /** What an event means to the alarm machine, if anything. */
  function Meaning(input: Input): Option<Action> {
    match input
    case PollFires(r) => Some(Poll(r))
    case SecondFires => Some(SecondTimer)
    case Connects(_, _) => None
    case Speaks(_, data) => Some(Rpc(Decode(RequestLine(data))))
    case HangsUp(_) => None
    case Expires(_) => Some(RpcTimeout)
    case Signalled(_) => Some(Terminate)
  }

  /** A slot whose read event is registered. */
  predicate Listening(n: Net, k: nat) {
    k < |n.slots| && n.slots[k].event.Some?
  }

  /** An event can be dispatched only if it is registered, and a timer only at its deadline. */
  ghost predicate CanHappen(d: Daemon, m: Moment) {
    && Shaped(d.net)
    && d.now <= m.at
    && match m.input
       case PollFires(_) => d.alarm.pollAt.Some? && d.alarm.pollAt.value <= m.at
       case SecondFires => d.alarm.secondAt.Some? && d.alarm.secondAt.value <= m.at
       case Connects(i, a) => i < LISTEN_LIMIT && d.net.listenEvents[i] && Fresh(d.net, a)
       case Speaks(k, data) => Listening(d.net, k) && data != []
       case HangsUp(k) => Listening(d.net, k)
       case Expires(k) => Listening(d.net, k) && d.net.slots[k].event.value <= m.at
       case Signalled(s) => s in d.handlers
  }

  /** What an event does to the session table; every request ends by releasing its slot. */
  function NextNet(n: Net, rpcTimeout: nat, m: Moment): Net
    requires Shaped(n)
  {
    match m.input
    case Connects(i, a) => if i < LISTEN_LIMIT then Accept(n, i, a, m.at + rpcTimeout * 1_000_000) else n
    case Speaks(k, _) => if Listening(n, k) then Clear(n, k) else n
    case HangsUp(k) => if Listening(n, k) then Clear(n, k) else n
    case Expires(k) => if Listening(n, k) then Clear(n, k) else n
    case Signalled(_) => Stop(n)
    case _ => n
  }

  function NextAlarm(p: Params, s: State, m: Moment): State {
    match Meaning(m.input)
    case None => s
    case Some(a) => Step(p, s, Event(m.at, a))
  }

  function Next(p: Params, rpcTimeout: nat, d: Daemon, m: Moment): Daemon
    requires Shaped(d.net)
  {
    Daemon(
      m.at,
      NextAlarm(p, d.alarm, m),
      NextNet(d.net, rpcTimeout, m),
      if m.input.Signalled? then {} else d.handlers)
  }

  /** What is sent back to the client that caused the event, if anything. */
  function Answer(d: Daemon, m: Moment): Option<string> {
    match m.input
    case Speaks(_, data) => Reply(d.alarm, Decode(RequestLine(data)))
    case Expires(_) => Some("TIMEOUT\r\n")
    case _ => None
  }

  /** When the event loop is entered, the server's pipe, and the first candidates, examined. */
  datatype Entry = Entry(at: Time, pipe: Pipe, candidates: seq<Candidate>, examined: nat) {
    /** The sockets that became listeners. */
    function Kept(): seq<int>
      requires examined <= |candidates|
    {
      Sockets(candidates[..examined])
    }
  }

  /** The daemon as it enters the event loop, with its listeners registered. */
  function Entered(x: Entry): Daemon
    requires x.examined <= |x.candidates| && |x.Kept()| <= LISTEN_LIMIT
  {
    Daemon(x.at, Initial(x.at), Started(x.pipe, x.candidates, x.examined), SIGNALS)
  }

  /** The operating system has returned descriptors that were not open. */
  predicate Honest(x: Entry) {
    Piped(x.pipe) && FreshSockets(Ends(x.pipe), x.candidates)
  }

  /** The loop is entered if there is a listener. */
  predicate Enters(x: Entry) {
    Examines(x.candidates, x.examined) && x.Kept() != [] && Honest(x)
  }

  ghost predicate Inv(p: Params, d: Daemon) {
    && AI.Inv(p, d.alarm)
    && AI.LogInv(p, d.alarm)
    && SessionModel.Inv(d.net)
    && d.alarm.now <= d.now
    && d.alarm.running == d.net.running
    && d.handlers == (if d.alarm.running then SIGNALS else {})
  }

  lemma EnteredInv(p: Params, x: Entry)
    requires Enters(x)
    ensures Inv(p, Entered(x))
  {
    hide SessionModel.Inv;
    StartedInv(x.pipe, x.candidates, x.examined);
  }

  /** Slots and listeners are registered only while the server runs. */
  lemma RegisteredWhileRunning(n: Net)
    requires SessionModel.Inv(n)
    ensures forall k: nat :: Listening(n, k) ==> n.running && n.slots[k].sd != -1
    ensures forall i :: 0 <= i < LISTEN_LIMIT && n.listenEvents[i] ==> n.running && i < n.listenMax
  {
    forall k: nat | Listening(n, k)
      ensures n.running && n.slots[k].sd != -1
    {
      assert SlotInv(n.slots[k]);
    }
  }

  lemma AcceptKeeps(n: Net, i: nat, a: Attempt, deadline: nat)
    requires SessionModel.Inv(n) && n.running && i < n.listenMax && Fresh(n, a)
    ensures var n' := SessionModel.Accept(n, i, a, deadline);
            SessionModel.Inv(n') && n'.running && n'.pipe == n.pipe && n'.listenMax == n.listenMax
  {
    AcceptTakesFirstFree(n, i, a, deadline);
    hide *;
  }

  lemma NetStep(d: Daemon, rpcTimeout: nat, m: Moment)
    requires SessionModel.Inv(d.net) && CanHappen(d, m)
    requires m.input.Signalled? ==> d.net.running
    ensures SessionModel.Inv(NextNet(d.net, rpcTimeout, m))
    ensures NextNet(d.net, rpcTimeout, m).running == (d.net.running && !m.input.Signalled?)
    ensures NextNet(d.net, rpcTimeout, m).pipe == d.net.pipe
    ensures NextNet(d.net, rpcTimeout, m).listenMax == d.net.listenMax
    ensures m.input.Signalled? ==> Drained(NextNet(d.net, rpcTimeout, m))
  {
    RegisteredWhileRunning(d.net);
    hide SessionModel.Inv, Drained, SessionModel.Accept, Stop, Fresh;
    match m.input
    case Connects(i, a) => AcceptKeeps(d.net, i, a, m.at + rpcTimeout * 1_000_000);
    case Speaks(k, _) => ClearReleases(d.net, k);
    case HangsUp(k) => ClearReleases(d.net, k);
    case Expires(k) => ClearReleases(d.net, k);
    case Signalled(_) => StopDrains(d.net);
    case _ =>
  }

  lemma AlarmStep(p: Params, d: Daemon, m: Moment)
    requires Inv(p, d) && CanHappen(d, m) && Meaning(m.input).Some?
    ensures Enabled(d.alarm, Event(m.at, Meaning(m.input).value))
  {
    RegisteredWhileRunning(d.net);
  }

  lemma NextKeepsInv(p: Params, rpcTimeout: nat, d: Daemon, m: Moment)
    requires Inv(p, d) && CanHappen(d, m)
    ensures Inv(p, Next(p, rpcTimeout, d, m))
    ensures Next(p, rpcTimeout, d, m).net.pipe == d.net.pipe
    ensures Next(p, rpcTimeout, d, m).net.listenMax == d.net.listenMax
  {
    hide SessionModel.Inv, NextNet, Step, AI.Inv, AI.LogInv;
    NetStep(d, rpcTimeout, m);
    if Meaning(m.input).Some? {
      var e := Event(m.at, Meaning(m.input).value);
      AlarmStep(p, d, m);
      AI.StepKeepsInv(p, d.alarm, e);
      AI.StepKeepsLogInv(p, d.alarm, e);
      AI.StepPolls(p, d.alarm, e);
      AI.StepLaunches(p, d.alarm, e);
    }
  }

  // ---- Runs of the daemon ----

  /** `ds` are the states of a run in which the events `ms` are dispatched. */
  ghost predicate IsRun(p: Params, rpcTimeout: nat, ds: seq<Daemon>, ms: seq<Moment>) {
    && |ds| == |ms| + 1
    && forall i :: 0 <= i < |ms| ==>
         CanHappen(ds[i], ms[i]) && ds[i + 1] == Next(p, rpcTimeout, ds[i], ms[i])
  }

  /** A run from the entry into the event loop. */
  ghost predicate IsRunFrom(p: Params, rpcTimeout: nat, x: Entry, ds: seq<Daemon>, ms: seq<Moment>) {
    Enters(x) && IsRun(p, rpcTimeout, ds, ms) && ds[0] == Entered(x)
  }

  /** The run as the alarm machine sees it. */
  function Seen(ms: seq<Moment>): seq<Event> {
    if ms == [] then [] else Seen(ms[..|ms| - 1]) + SeenAs(ms[|ms| - 1])
  }

  function SeenAs(m: Moment): seq<Event> {
    match Meaning(m.input)
    case None => []
    case Some(a) => [Event(m.at, a)]
  }

  lemma SeenNext(p: Params, d: Daemon, m: Moment, s: State, seen: seq<Event>)
    requires Inv(p, d) && CanHappen(d, m)
    requires Feasible(p, s, seen) && d.alarm == After(p, s, seen)
    ensures Feasible(p, s, seen + SeenAs(m))
    ensures NextAlarm(p, d.alarm, m) == After(p, s, seen + SeenAs(m))
  {
    if Meaning(m.input).Some? {
      AlarmStep(p, d, m);
      hide Inv, CanHappen, Step;
      AI.Extend(p, s, seen, Event(m.at, Meaning(m.input).value));
    } else {
      assert seen + [] == seen;
    }
  }

  /**
    In every state of every run the invariant holds, and the alarm is where the alarm machine is
    after the events it sees: what is true of all its runs is true of the daemon.
   */
  lemma {:induction false} RunsOfTheDaemon(
      p: Params, rpcTimeout: nat, x: Entry, ds: seq<Daemon>, ms: seq<Moment>, k: nat)
    requires IsRunFrom(p, rpcTimeout, x, ds, ms)
    requires k <= |ms|
    ensures Inv(p, ds[k]) && ds[k].net.pipe == x.pipe && ds[k].net.listenMax == ds[0].net.listenMax
    ensures Feasible(p, Initial(x.at), Seen(ms[..k]))
    ensures ds[k].alarm == After(p, Initial(x.at), Seen(ms[..k]))
    decreases k
  {
    hide *;
    RunLength(p, rpcTimeout, x, ds, ms);
    if k == 0 {
      StartOfRun(p, rpcTimeout, x, ds, ms);
      assert ms[..k] == [];
    } else {
      RunsOfTheDaemon(p, rpcTimeout, x, ds, ms, k - 1);
      StepOfRun(p, rpcTimeout, x, ds, ms, k - 1);
      NextKeepsInv(p, rpcTimeout, ds[k - 1], ms[k - 1]);
      SeenNext(p, ds[k - 1], ms[k - 1], Initial(x.at), Seen(ms[..k - 1]));
      SeenPrefix(ms, k - 1);
    }
  }

  lemma SeenPrefix(ms: seq<Moment>, k: nat)
    requires k < |ms|
    ensures Seen(ms[..k + 1]) == Seen(ms[..k]) + SeenAs(ms[k])
  {
    assert ms[..k + 1][..k] == ms[..k];
  }

  lemma RunLength(p: Params, rpcTimeout: nat, x: Entry, ds: seq<Daemon>, ms: seq<Moment>)
    requires IsRunFrom(p, rpcTimeout, x, ds, ms)
    ensures |ds| == |ms| + 1
  {
  }

  lemma StartOfRun(p: Params, rpcTimeout: nat, x: Entry, ds: seq<Daemon>, ms: seq<Moment>)
    requires IsRunFrom(p, rpcTimeout, x, ds, ms)
    ensures Inv(p, ds[0]) && ds[0].net.pipe == x.pipe
    ensures ds[0].alarm == Initial(x.at)
    ensures Seen([]) == [] && Feasible(p, Initial(x.at), []) && After(p, Initial(x.at), []) == Initial(x.at)
  {
    EnteredInv(p, x);
    hide Inv;
  }

  lemma StepOfRun(p: Params, rpcTimeout: nat, x: Entry, ds: seq<Daemon>, ms: seq<Moment>, k: nat)
    requires IsRunFrom(p, rpcTimeout, x, ds, ms) && k < |ms|
    ensures CanHappen(ds[k], ms[k]) && ds[k + 1] == Next(p, rpcTimeout, ds[k], ms[k])
    ensures ds[k + 1].alarm == NextAlarm(p, ds[k].alarm, ms[k])
    ensures ds[k + 1].net == NextNet(ds[k].net, rpcTimeout, ms[k])
  {
    hide Listening, Fresh, Shaped, NextNet, NextAlarm, Enters, Entered;
    assert CanHappen(ds[k], ms[k]) && ds[k + 1] == Next(p, rpcTimeout, ds[k], ms[k]);
  }

  // ---- Termination ----

  /**
    A signal leaves no signal, poll, second-alert, listen or accept event registered, every slot
    free and every descriptor closed but those of the pipe, and launches nothing.
   */
  lemma SignalDrains(p: Params, rpcTimeout: nat, d: Daemon, m: Moment)
    requires Inv(p, d) && CanHappen(d, m) && m.input.Signalled?
    ensures var d' := Next(p, rpcTimeout, d, m);
            && d'.handlers == {}
            && d'.alarm.pollAt == None && d'.alarm.secondAt == None
            && Drained(d'.net) && d'.net.pipe == d.net.pipe
            && d'.alarm.log == d.alarm.log
  {
    NetStep(d, rpcTimeout, m);
    hide NextNet, Drained;
    AI.StepPolls(p, d.alarm, Event(m.at, Terminate));
    AI.StepLaunches(p, d.alarm, Event(m.at, Terminate));
  }

  /** The event loop can go on exactly as long as no signal has been handled. */
  lemma LoopEndsExactly(p: Params, d: Daemon)
    requires Inv(p, d)
    ensures (exists m :: CanHappen(d, m)) <==> d.alarm.running
  {
    RegisteredWhileRunning(d.net);
    if d.alarm.running {
      var due := d.alarm.pollAt.value;
      var m := Moment(if due < d.now then d.now else due, PollFires(Nobody));
      assert CanHappen(d, m);
    }
  }

  /** Once a signal is handled, no run can be continued. */
  lemma SignalIsLast(p: Params, rpcTimeout: nat, x: Entry, ds: seq<Daemon>, ms: seq<Moment>, k: nat)
    requires IsRunFrom(p, rpcTimeout, x, ds, ms)
    requires k < |ms| && ms[k].input.Signalled?
    ensures k == |ms| - 1
  {
    assert k + 1 < |ms| ==> CanHappen(ds[k + 1], ms[k + 1]);
    RunsOfTheDaemon(p, rpcTimeout, x, ds, ms, k);
    NextKeepsInv(p, rpcTimeout, ds[k], ms[k]);
    AI.StepPolls(p, ds[k].alarm, Event(ms[k].at, Terminate));
    hide Step;
    LoopEndsExactly(p, ds[k + 1]);
  }

  // ---- Sessions ----

  /**
    In every state of every run exactly the taken slots, the listeners and the pipe hold open
    descriptors, no two of them the same one; no descriptor was ever closed twice; and a read event
    is registered exactly for the taken slots.
   */
  lemma SessionsConserved(p: Params, rpcTimeout: nat, x: Entry, ds: seq<Daemon>, ms: seq<Moment>, k: nat)
    requires IsRunFrom(p, rpcTimeout, x, ds, ms)
    requires k <= |ms|
    ensures var net := ds[k].net;
            && Replay(net.journal) == Some(Held(Fds(net)) + Ends(x.pipe))
            && Distinct(Fds(net)) && Held(Fds(net)) !! Ends(x.pipe)
            && (forall s :: 0 <= s < |net.slots| ==> (net.slots[s].event.Some? <==> net.slots[s].sd != -1))
            && (ds[k].alarm.running <==> ds[k].alarm.pollAt.Some?)
  {
    RunsOfTheDaemon(p, rpcTimeout, x, ds, ms, k);
    var net := ds[k].net;
    assert forall s :: 0 <= s < SLOTS ==> SlotInv(net.slots[s]);
  }
}
