/**
  The alarm machine of the daemon as a labelled transition system.

  One `Event` is one libevent callback, stamped with the time at which it is dispatched. Times
  are in microseconds. The launches of the two scripts and the "alert!!" lines are the outputs
  of the machine and are kept as logs in the state.
 */
module AlarmModel {
  import opened Options

  type Time = nat

  const FIRST_POLL_DELAY: nat := 2_000_000

  const NO_ALERT: int := 0
  const FIRST_ALERT: int := 1
  const SECOND_ALERT: int := 2

  /** The three settings that govern the alarm, each within the range the configuration allows. */
  datatype Settings = Settings(threshold: int, pollInterval: int, cancelWait: int) {
    predicate InRange() {
      && 1 <= threshold <= 65535
      && 1000 <= pollInterval <= 255000
      && 5 <= cancelWait <= 86400
    }
  }

  type Params = p: Settings | p.InRange() witness Settings(12, 5000, 60)

  /** The time between a first launch and the second launch it announces. */
  function Grace(p: Params): (w: nat)
    ensures w >= 5_000_000
  {
    p.cancelWait * 1_000_000
  }

  datatype Script = First | Second
  datatype Launch = Launch(at: Time, script: Script)

  datatype Reading = Person | Nobody | Failed
  datatype Command =
    | StopMonitor
    | StartMonitor
    | GetMonitorStatus
    | CancelAlert
    | GetAlertStatus
    | ClearAlertStatus
    | UnknownCommand

  datatype Action =
    | Poll(reading: Reading)
    | SecondTimer
    | Rpc(command: Command)
    | RpcTimeout
    | Terminate
  datatype Event = Event(at: Time, act: Action)

  /**
    `pollAt` and `secondAt` are the deadlines of the two one-shot timers, `None` when a timer is
    not registered. `running` says that the signal handlers are registered.
   */
  datatype State = State(
    now: Time,
    running: bool,
    pollAt: Option<Time>,
    secondAt: Option<Time>,
    count: nat,
    monitor: bool,
    processing: bool,
    status: int,
    alerts: seq<Time>,
    log: seq<Launch>)

  /** The state when the event loop is entered at time `t`. */
  function Initial(t: Time): State {
    State(t, true, Some(t + FIRST_POLL_DELAY), None, 0, true, false, NO_ALERT, [], [])
  }

  function StartFirst(p: Params, s: State): State {
    if s.processing then
      s.(status := FIRST_ALERT)
    else
      s.(status := FIRST_ALERT,
         processing := true,
         log := s.log + [Launch(s.now, First)],
         secondAt := Some(s.now + Grace(p)))
  }

  function StartSecond(s: State): State {
    s.(status := SECOND_ALERT, processing := false, log := s.log + [Launch(s.now, Second)])
  }

  function Cancel(s: State): State {
    s.(secondAt := None, processing := false, status := NO_ALERT)
  }

  /** What a reading does to the counter and the alarm, before the poll timer is registered again. */
  function Sense(p: Params, s: State, r: Reading): State {
    match r
    case Failed => s
    case Nobody => s.(count := 0)
    case Person =>
      if s.count + 1 > p.threshold then
        var told := s.(alerts := s.alerts + [s.now]);
        (if s.monitor then StartFirst(p, told) else told).(count := 0)
      else
        s.(count := s.count + 1)
  }

  function Obey(s: State, c: Command): State {
    match c
    case StopMonitor => Cancel(s).(monitor := false)
    case StartMonitor => s.(monitor := true)
    case CancelAlert => Cancel(s)
    case ClearAlertStatus => s.(status := NO_ALERT)
    case GetMonitorStatus => s
    case GetAlertStatus => s
    case UnknownCommand => s
  }

  /** One callback. A one-shot timer that fires is no longer registered. */
  function Step(p: Params, s: State, e: Event): State {
    var s := s.(now := e.at);
    match e.act
    case Poll(r) => Sense(p, s.(pollAt := None), r).(pollAt := Some(e.at + p.pollInterval))
    case SecondTimer => StartSecond(s.(secondAt := None))
    case Rpc(c) => Obey(s, c)
    case RpcTimeout => s
    case Terminate => Cancel(s).(running := false, pollAt := None)
  }

  /** The line sent back for a command, `None` where the daemon would abort. */
  function Reply(s: State, c: Command): Option<string> {
    match c
    case StopMonitor => Some("OK\r\n")
    case StartMonitor => Some("OK\r\n")
    case CancelAlert => Some("OK\r\n")
    case ClearAlertStatus => Some("OK\r\n")
    case GetMonitorStatus => Some(if s.monitor then "RUNNING\r\n" else "STOPPING\r\n")
    case GetAlertStatus =>
      if s.status == NO_ALERT then Some("GOOD\r\n")
      else if s.status == FIRST_ALERT then Some("FIRST ALERT\r\n")
      else if s.status == SECOND_ALERT then Some("SECOND ALERT\r\n")
      else None
    case UnknownCommand => Some("UNKNOWN COMMAND\r\n")
  }

  /** An event is stamped with its own time: when the one before it happened does not matter. */
  lemma LastTimeIrrelevant(p: Params, s: State, t: Time, e: Event, c: Command)
    ensures Step(p, s.(now := t), e) == Step(p, s, e)
    ensures Reply(s.(now := t), c) == Reply(s, c)
  {
  }

  /** Time never runs backwards and a timer never fires before its deadline. */
  predicate Enabled(s: State, e: Event) {
    && s.now <= e.at
    && match e.act
       case Poll(_) => s.pollAt.Some? && s.pollAt.value <= e.at
       case SecondTimer => s.secondAt.Some? && s.secondAt.value <= e.at
       case _ => s.running
  }

  function After(p: Params, s: State, es: seq<Event>): State {
    if es == [] then s
    else Step(p, After(p, s, es[..|es| - 1]), es[|es| - 1])
  }

  predicate Feasible(p: Params, s: State, es: seq<Event>) {
    es == [] || (
      && Feasible(p, s, es[..|es| - 1])
      && Enabled(After(p, s, es[..|es| - 1]), es[|es| - 1]))
  }

  /** A run is followed by its continuation. */
  lemma {:induction false} AfterConcat(p: Params, s: State, xs: seq<Event>, ys: seq<Event>)
    ensures After(p, s, xs + ys) == After(p, After(p, s, xs), ys)
    ensures Feasible(p, s, xs + ys) <==>
            Feasible(p, s, xs) && Feasible(p, After(p, s, xs), ys)
  {
    if ys == [] {
      assert xs + ys == xs;
    } else {
      var n := |ys| - 1;
      assert (xs + ys)[..|xs + ys| - 1] == xs + ys[..n];
      AfterConcat(p, s, xs, ys[..n]);
    }
  }

  /** The state before event `k` of a run, and the event leading out of it. */
  lemma RunAt(p: Params, s: State, es: seq<Event>, k: nat)
    requires k < |es| && Feasible(p, s, es)
    ensures Feasible(p, s, es[..k]) && Feasible(p, s, es[..k + 1])
    ensures Enabled(After(p, s, es[..k]), es[k])
    ensures After(p, s, es[..k + 1]) == Step(p, After(p, s, es[..k]), es[k])
  {
    assert es[..k + 1] + es[k + 1..] == es;
    AfterConcat(p, s, es[..k + 1], es[k + 1..]);
    assert es[..k + 1][..k] == es[..k];
  }
}
