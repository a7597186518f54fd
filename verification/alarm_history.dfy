/**
  The script log as a function of the whole event history, computed without running the machine:
  find where a run of detections completes another group while monitoring is on, open an alarm
  there, look ahead for the event that closes it, and go on from there.
 */
module AlarmHistory {
  import opened Options
  import opened Sequences
  import opened AlarmModel
  import opened AlarmInvariants
  import opened AlarmCounting

  /** Event `k` completes another group of `threshold + 1` detections in a row. */
  predicate IsTrigger(p: Params, es: seq<Event>, k: nat)
    requires k < |es|
  {
    es[k].act == Poll(Person) && Current(es[..k + 1]) % (p.threshold + 1) == 0
  }

  /** Whether the last of the start and stop commands was a start; monitoring is on at first. */
  predicate Monitored(es: seq<Event>) {
    es == [] ||
    match es[|es| - 1].act
    case Rpc(StartMonitor) => true
    case Rpc(StopMonitor) => false
    case _ => Monitored(es[..|es| - 1])
  }

  predicate Opens(p: Params, es: seq<Event>, k: nat)
    requires k < |es|
  {
    IsTrigger(p, es, k) && Monitored(es[..k])
  }

  predicate Closes(a: Action) {
    a == SecondTimer || Cancels(a)
  }

  function NextOpening(p: Params, es: seq<Event>, k: nat): (i: nat)
    requires k <= |es|
    ensures k <= i <= |es|
    decreases |es| - k
  {
    if k == |es| || Opens(p, es, k) then k else NextOpening(p, es, k + 1)
  }

  function NextClosing(es: seq<Event>, k: nat): (j: nat)
    requires k <= |es|
    ensures k <= j <= |es|
    ensures forall m :: k <= m < j ==> !Closes(es[m].act)
    ensures j < |es| ==> Closes(es[j].act)
    decreases |es| - k
  {
    if k == |es| || Closes(es[k].act) then k else NextClosing(es, k + 1)
  }

  /** What an alarm opened at event `i` and closed at event `j`, or not at all, launches. */
  function Alarm(es: seq<Event>, i: nat, j: nat): seq<Launch>
    requires i < j <= |es|
  {
    [Launch(es[i].at, First)] +
    if j < |es| && es[j].act == SecondTimer then [Launch(es[j].at, Second)] else []
  }

  /** The launches that the events from `k` on owe, when no alarm is open before event `k`. */
  function Owed(p: Params, es: seq<Event>, k: nat): seq<Launch>
    requires k <= |es|
    decreases |es| - k
  {
    var i := NextOpening(p, es, k);
    if i == |es| then []
    else
      var j := NextClosing(es, i + 1);
      if j == |es| then Alarm(es, i, j) else Alarm(es, i, j) + Owed(p, es, j + 1)
  }

  lemma {:induction false} MonitorFollows(p: Params, t: Time, es: seq<Event>)
    ensures After(p, Initial(t), es).monitor == Monitored(es)
  {
    if es != [] {
      MonitorFollows(p, t, es[..|es| - 1]);
    }
  }

  /** The state of the machine before event `k` of a run. */
  function At(p: Params, t: Time, es: seq<Event>, k: nat): State
    requires k <= |es|
  {
    After(p, Initial(t), es[..k])
  }

  lemma AtNext(p: Params, t: Time, es: seq<Event>, k: nat)
    requires k < |es| && Feasible(p, Initial(t), es)
    ensures At(p, t, es, k + 1) == Step(p, At(p, t, es, k), es[k])
    ensures Enabled(At(p, t, es, k), es[k])
    ensures Inv(p, At(p, t, es, k))
  {
    hide Step;
    RunAt(p, Initial(t), es, k);
    Reachable(p, t, es[..k]);
  }

  /** The history and the machine agree on whether the last event is a trigger that is heeded. */
  lemma TriggerAgrees(p: Params, t: Time, es: seq<Event>)
    requires es != [] && Feasible(p, Initial(t), es)
    ensures var s := After(p, Initial(t), es[..|es| - 1]);
            Opens(p, es, |es| - 1)
            <==> es[|es| - 1].act == Poll(Person) && s.count + 1 > p.threshold && s.monitor
  {
    hide Step, Current;
    var before := es[..|es| - 1];
    assert es[..|es|] == es;
    assert Feasible(p, Initial(t), before);
    assert After(p, Initial(t), es) == Step(p, After(p, Initial(t), before), es[|es| - 1]);
    hide After, Feasible, Initial, Monitored, LogInv;
    ExactCount(p, t, es);
    Reachable(p, t, before);
    MonitorFollows(p, t, before);
    StepPolls(p, After(p, Initial(t), before), es[|es| - 1]);
  }

  /** An event opens an alarm, as read off the history, exactly when it makes the machine do so. */
  lemma OpeningAgrees(p: Params, t: Time, es: seq<Event>, k: nat)
    requires k < |es| && Feasible(p, Initial(t), es)
    requires !At(p, t, es, k).processing
    ensures Opens(p, es, k) <==> Launched(p, At(p, t, es, k), es[k]) == Some(First)
  {
    hide Step, Current, After, Feasible, Monitored;
    RunAt(p, Initial(t), es, k);
    var prefix := es[..k + 1];
    assert prefix[..k] == es[..k] && prefix[..k + 1] == prefix;
    TriggerAgrees(p, t, prefix);
  }

  /** An alarm stays open, and the log stays as it is, up to the next closing event. */
  lemma {:induction false} OpenUntilClosed(p: Params, t: Time, es: seq<Event>, i: nat, j: nat)
    requires i <= j <= |es| && Feasible(p, Initial(t), es)
    requires At(p, t, es, i).processing
    requires forall m :: i <= m < j ==> !Closes(es[m].act)
    ensures At(p, t, es, j).processing && At(p, t, es, j).log == At(p, t, es, i).log
    decreases j
  {
    hide Step, At;
    if i < j {
      OpenUntilClosed(p, t, es, i, j - 1);
      AtNext(p, t, es, j - 1);
      StepLaunches(p, At(p, t, es, j - 1), es[j - 1]);
    }
  }

  lemma Opening(p: Params, t: Time, es: seq<Event>, k: nat)
    requires k < |es| && Feasible(p, Initial(t), es)
    requires !At(p, t, es, k).processing && Opens(p, es, k)
    ensures At(p, t, es, k + 1).processing
    ensures At(p, t, es, k + 1).log == At(p, t, es, k).log + [Launch(es[k].at, First)]
  {
    OpeningAgrees(p, t, es, k);
    hide Step, At, Feasible, Opens;
    AtNext(p, t, es, k);
    StepLaunches(p, At(p, t, es, k), es[k]);
  }

  lemma Closing(p: Params, t: Time, es: seq<Event>, j: nat)
    requires j < |es| && Feasible(p, Initial(t), es)
    requires At(p, t, es, j).processing && Closes(es[j].act)
    ensures !At(p, t, es, j + 1).processing
    ensures At(p, t, es, j + 1).log
            == At(p, t, es, j).log + if es[j].act == SecondTimer then [Launch(es[j].at, Second)] else []
  {
    hide Step, At, Feasible;
    AtNext(p, t, es, j);
    StepLaunches(p, At(p, t, es, j), es[j]);
  }

  /** One alarm of a run, from its opening to its closing, adds what `Alarm` says. */
  lemma OneAlarm(p: Params, t: Time, es: seq<Event>, k: nat)
    requires k < |es| && Feasible(p, Initial(t), es)
    requires !At(p, t, es, k).processing && Opens(p, es, k)
    ensures var j := NextClosing(es, k + 1);
            var next := if j < |es| then j + 1 else j;
            && At(p, t, es, next).log == At(p, t, es, k).log + Alarm(es, k, j)
            && (j < |es| ==> !At(p, t, es, next).processing)
  {
    hide At, Feasible, Opens;
    var j := NextClosing(es, k + 1);
    hide NextClosing, Closes;
    Opening(p, t, es, k);
    OpenUntilClosed(p, t, es, k + 1, j);
    if j < |es| {
      Closing(p, t, es, j);
    }
  }

  /** An event that opens no alarm while none is open launches nothing. */
  lemma Quiet(p: Params, t: Time, es: seq<Event>, k: nat)
    requires k < |es| && Feasible(p, Initial(t), es)
    requires !At(p, t, es, k).processing && !Opens(p, es, k)
    ensures At(p, t, es, k + 1).log == At(p, t, es, k).log
    ensures !At(p, t, es, k + 1).processing
  {
    OpeningAgrees(p, t, es, k);
    hide Step, At, Feasible, Opens;
    AtNext(p, t, es, k);
    StepLaunches(p, At(p, t, es, k), es[k]);
  }

  lemma OwedUnfolds(p: Params, es: seq<Event>, k: nat)
    requires k <= |es|
    ensures Owed(p, es, k) ==
            if k == |es| then []
            else if !Opens(p, es, k) then Owed(p, es, k + 1)
            else
              var j := NextClosing(es, k + 1);
              if j == |es| then Alarm(es, k, j) else Alarm(es, k, j) + Owed(p, es, j + 1)
  {
    hide Opens, Alarm, NextClosing;
  }

  lemma {:induction false} LogFrom(p: Params, t: Time, es: seq<Event>, k: nat)
    requires k <= |es| && Feasible(p, Initial(t), es)
    requires !At(p, t, es, k).processing
    ensures At(p, t, es, |es|).log == At(p, t, es, k).log + Owed(p, es, k)
    decreases |es| - k
  {
    hide At, Feasible, Opens, NextClosing, Owed, Alarm;
    OwedUnfolds(p, es, k);
    if k < |es| {
      if !Opens(p, es, k) {
        Quiet(p, t, es, k);
        LogFrom(p, t, es, k + 1);
      } else {
        OneAlarm(p, t, es, k);
        var j := NextClosing(es, k + 1);
        if j < |es| {
          LogFrom(p, t, es, j + 1);
          Associative(At(p, t, es, k).log, Alarm(es, k, j), Owed(p, es, j + 1));
        }
      }
    }
  }

  /** The log kept by the machine is the one the whole history calls for. */
  lemma LogIsOwed(p: Params, t: Time, es: seq<Event>)
    requires Feasible(p, Initial(t), es)
    ensures After(p, Initial(t), es).log == Owed(p, es, 0)
  {
    LogFrom(p, t, es, 0);
    assert es[..|es|] == es;
  }

  // ---- What the daemon answers ----

  /** The status on display: what the last event that touches it says. */
  function Displayed(p: Params, es: seq<Event>): int {
    if es == [] then NO_ALERT
    else
      match es[|es| - 1].act
      case SecondTimer => SECOND_ALERT
      case Rpc(StopMonitor) => NO_ALERT
      case Rpc(CancelAlert) => NO_ALERT
      case Rpc(ClearAlertStatus) => NO_ALERT
      case Terminate => NO_ALERT
      case _ => if Opens(p, es, |es| - 1) then FIRST_ALERT else Displayed(p, es[..|es| - 1])
  }

  /** A trigger while monitoring is on shows the first alert, whether or not an alarm is open. */
  lemma StepDisplays(p: Params, s: State, e: Event)
    ensures Step(p, s, e).status ==
            match e.act
            case SecondTimer => SECOND_ALERT
            case Rpc(StopMonitor) => NO_ALERT
            case Rpc(CancelAlert) => NO_ALERT
            case Rpc(ClearAlertStatus) => NO_ALERT
            case Terminate => NO_ALERT
            case _ => if e.act == Poll(Person) && s.count + 1 > p.threshold && s.monitor then FIRST_ALERT
                      else s.status
  {
  }

  /** The answers that a history calls for. */
  function MonitorReply(es: seq<Event>): Option<string> {
    Some(if Monitored(es) then "RUNNING\r\n" else "STOPPING\r\n")
  }

  function AlertReply(p: Params, es: seq<Event>): Option<string> {
    Some(if Displayed(p, es) == FIRST_ALERT then "FIRST ALERT\r\n"
         else if Displayed(p, es) == SECOND_ALERT then "SECOND ALERT\r\n"
         else "GOOD\r\n")
  }

  /** The two queries are answered from the history alone. */
  lemma {:induction false} AnswersFollow(p: Params, t: Time, es: seq<Event>)
    requires Feasible(p, Initial(t), es)
    ensures After(p, Initial(t), es).status == Displayed(p, es)
    ensures Reply(After(p, Initial(t), es), GetMonitorStatus) == MonitorReply(es)
    ensures Reply(After(p, Initial(t), es), GetAlertStatus) == AlertReply(p, es)
  {
    hide Step, Opens;
    MonitorFollows(p, t, es);
    if es != [] {
      AnswersFollow(p, t, es[..|es| - 1]);
      TriggerAgrees(p, t, es);
      StepDisplays(p, After(p, Initial(t), es[..|es| - 1]), es[|es| - 1]);
    }
  }
}
