/**
  What holds in every state of every run of the alarm machine, and exactly which control states
  a running daemon can be in.
 */
module AlarmInvariants {
  import opened Options
  import opened AlarmModel

  predicate Inv(p: Params, s: State) {
    && NO_ALERT <= s.status <= SECOND_ALERT
    && (s.processing <==> s.secondAt.Some?)
    && (s.running <==> s.pollAt.Some?)
    && (!(s.running && s.monitor) ==> s.status == NO_ALERT && !s.processing)
    && (s.status == FIRST_ALERT ==> s.processing)
    && (s.status == SECOND_ALERT ==> !s.processing)
    && s.count <= p.threshold
  }

  /** The launches so far, and what an open alarm owes to the last of them. */
  predicate LogInv(p: Params, s: State) {
    && (forall i :: 0 <= i < |s.log| ==> s.log[i].at <= s.now)
    && (forall i, j :: 0 <= i < j < |s.log| ==> s.log[i].at <= s.log[j].at)
    && (forall j :: 0 <= j < |s.log| ==> Paired(p, s.log, j))
    && (s.processing ==>
          && s.secondAt.Some?
          && s.log != []
          && s.log[|s.log| - 1].script == First
          && s.secondAt == Some(s.log[|s.log| - 1].at + Grace(p)))
  }

  /** A second launch directly follows the first launch that announced it, after the grace time. */
  predicate Paired(p: Params, log: seq<Launch>, j: nat)
    requires j < |log|
  {
    log[j].script == Second ==>
      && 0 < j
      && log[j - 1].script == First
      && log[j - 1].at + Grace(p) <= log[j].at
  }

  /** The launch that an event causes, if any. */
  function Launched(p: Params, s: State, e: Event): Option<Script> {
    if e.act == Poll(Person) && s.count + 1 > p.threshold && s.monitor && !s.processing then Some(First)
    else if e.act == SecondTimer then Some(Second)
    else None
  }

  predicate Cancels(a: Action) {
    a == Rpc(StopMonitor) || a == Rpc(CancelAlert) || a == Terminate
  }

  /** A reading launches the first script or leaves the alarm alone. */
  lemma SenseLaunches(p: Params, s: State, r: Reading)
    ensures var opens := r == Person && s.count + 1 > p.threshold && s.monitor && !s.processing;
            var s' := Sense(p, s, r);
            && s'.now == s.now
            && s'.log == (if opens then s.log + [Launch(s.now, First)] else s.log)
            && s'.processing == (opens || s.processing)
            && s'.secondAt == (if opens then Some(s.now + Grace(p)) else s.secondAt)
  {
  }

  /** An event launches at most one script, and opens or closes the alarm accordingly. */
  lemma StepLaunches(p: Params, s: State, e: Event)
    ensures var l := Launched(p, s, e);
            var s' := Step(p, s, e);
            && s'.now == e.at
            && s'.log == (if l.None? then s.log else s.log + [Launch(e.at, l.value)])
            && s'.processing == (l == Some(First) || (s.processing && e.act != SecondTimer && !Cancels(e.act)))
            && s'.secondAt == (if l == Some(First) then Some(e.at + Grace(p))
                               else if e.act == SecondTimer || Cancels(e.act) then None
                               else s.secondAt)
  {
    if e.act.Poll? {
      SenseLaunches(p, s.(now := e.at, pollAt := None), e.act.reading);
    }
    hide Sense, Grace;
  }

  /** Only polls and the termination touch the poll timer, the counter and the triggers. */
  lemma StepPolls(p: Params, s: State, e: Event)
    ensures var s' := Step(p, s, e);
            && s'.running == (s.running && e.act != Terminate)
            && s'.pollAt == (match e.act
                             case Poll(_) => Some(e.at + p.pollInterval)
                             case Terminate => None
                             case _ => s.pollAt)
            && s'.alerts == (if e.act == Poll(Person) && s.count + 1 > p.threshold then s.alerts + [e.at]
                             else s.alerts)
            && s'.count == (match e.act
                            case Poll(Person) => if s.count + 1 > p.threshold then 0 else s.count + 1
                            case Poll(Nobody) => 0
                            case _ => s.count)
  {
  }

  lemma StepKeepsInv(p: Params, s: State, e: Event)
    requires Inv(p, s) && Enabled(s, e)
    ensures Inv(p, Step(p, s, e))
  {
  }

  lemma StepKeepsLogInv(p: Params, s: State, e: Event)
    requires Inv(p, s) && LogInv(p, s) && Enabled(s, e)
    ensures LogInv(p, Step(p, s, e))
  {
    hide Step;
    StepLaunches(p, s, e);
    var s' := Step(p, s, e);
    forall j | 0 <= j < |s'.log|
      ensures Paired(p, s'.log, j)
    {
      if j < |s.log| {
        assert Paired(p, s.log, j);
      }
    }
  }

  /** Both invariants hold at the end of every run. */
  lemma {:induction false} Reachable(p: Params, t: Time, es: seq<Event>)
    requires Feasible(p, Initial(t), es)
    ensures Inv(p, After(p, Initial(t), es)) && LogInv(p, After(p, Initial(t), es))
  {
    hide Step;
    if es != [] {
      var before := es[..|es| - 1];
      Reachable(p, t, before);
      StepKeepsInv(p, After(p, Initial(t), before), es[|es| - 1]);
      StepKeepsLogInv(p, After(p, Initial(t), before), es[|es| - 1]);
    }
  }

  /** The invariants carry over to every continuation of a run. */
  lemma {:induction false} Continued(p: Params, s: State, es: seq<Event>)
    requires Inv(p, s) && LogInv(p, s) && Feasible(p, s, es)
    ensures Inv(p, After(p, s, es)) && LogInv(p, After(p, s, es))
    ensures s.now <= After(p, s, es).now
    ensures s.log <= After(p, s, es).log
  {
    hide Step;
    if es != [] {
      var before := es[..|es| - 1];
      Continued(p, s, before);
      StepKeepsInv(p, After(p, s, before), es[|es| - 1]);
      StepKeepsLogInv(p, After(p, s, before), es[|es| - 1]);
      StepLaunches(p, After(p, s, before), es[|es| - 1]);
    }
  }

  /** No command sent to a reachable daemon makes it abort. */
  lemma {:induction false} NeverAborts(p: Params, t: Time, es: seq<Event>, c: Command)
    requires Feasible(p, Initial(t), es)
    ensures Reply(After(p, Initial(t), es), c).Some?
  {
    Reachable(p, t, es);
  }

  // ---- Conservation of alarms ----

  function CountOf(log: seq<Launch>, script: Script): nat {
    if log == [] then 0
    else CountOf(log[..|log| - 1], script) + if log[|log| - 1].script == script then 1 else 0
  }

  /** The number of cancels, stops and terminations that met an open alarm. */
  function Hits(p: Params, s: State, es: seq<Event>): nat {
    if es == [] then 0
    else
      var before := es[..|es| - 1];
      Hits(p, s, before) +
      if Cancels(es[|es| - 1].act) && After(p, s, before).processing then 1 else 0
  }

  function Balance(s: State): int {
    CountOf(s.log, First) - CountOf(s.log, Second) - if s.processing then 1 else 0
  }

  lemma StepBalance(p: Params, s: State, e: Event)
    requires Inv(p, s) && Enabled(s, e)
    ensures Balance(Step(p, s, e)) == Balance(s) + if Cancels(e.act) && s.processing then 1 else 0
  {
    hide Step;
    StepLaunches(p, s, e);
    var l := Launched(p, s, e);
    if l.Some? {
      assert (s.log + [Launch(e.at, l.value)])[..|s.log|] == s.log;
    }
  }

  /** Every first launch is answered by a second launch, called off, or still open. */
  lemma {:induction false} Conservation(p: Params, t: Time, es: seq<Event>)
    requires Feasible(p, Initial(t), es)
    ensures var s := After(p, Initial(t), es);
            CountOf(s.log, First)
            == CountOf(s.log, Second) + Hits(p, Initial(t), es) + if s.processing then 1 else 0
  {
    hide Step;
    if es != [] {
      var before := es[..|es| - 1];
      Conservation(p, t, before);
      Reachable(p, t, before);
      StepBalance(p, After(p, Initial(t), before), es[|es| - 1]);
    }
  }

  // ---- The control states of a running daemon ----

  datatype Control = Control(monitor: bool, status: int, processing: bool, count: nat)

  function ControlOf(s: State): Control {
    Control(s.monitor, s.status, s.processing, s.count)
  }

  /** The five combinations of flags, each with every count up to the threshold. */
  predicate Allowed(p: Params, c: Control) {
    && c.count <= p.threshold
    && if c.monitor then
         (c.status, c.processing)
         in {(NO_ALERT, false), (NO_ALERT, true), (FIRST_ALERT, true), (SECOND_ALERT, false)}
       else
         c.status == NO_ALERT && !c.processing
  }

  /** `es` is a run that leaves the daemon running in control state `c`. */
  predicate Witnesses(p: Params, t: Time, es: seq<Event>, c: Control) {
    && Feasible(p, Initial(t), es)
    && After(p, Initial(t), es).running
    && ControlOf(After(p, Initial(t), es)) == c
  }

  /** No client is ever silent for too long. */
  predicate Prompt(es: seq<Event>) {
    forall k :: 0 <= k < |es| ==> !es[k].act.RpcTimeout?
  }

  lemma Extend(p: Params, s: State, es: seq<Event>, e: Event)
    requires Feasible(p, s, es) && Enabled(After(p, s, es), e)
    ensures Feasible(p, s, es + [e])
    ensures After(p, s, es + [e]) == Step(p, After(p, s, es), e)
  {
    assert (es + [e])[..|es + [e]| - 1] == es;
  }

  /** Appends `n` detections that stay below the trigger. */
  lemma {:induction false} Detect(p: Params, t: Time, es: seq<Event>, n: nat) returns (run: seq<Event>)
    requires Feasible(p, Initial(t), es) && After(p, Initial(t), es).running
    requires After(p, Initial(t), es).count + n <= p.threshold
    ensures Witnesses(p, t, run, ControlOf(After(p, Initial(t), es)).(count := After(p, Initial(t), es).count + n))
    ensures Prompt(es) ==> Prompt(run)
  {
    Reachable(p, t, es);
    if n == 0 {
      return es;
    }
    run := Detect(p, t, es, n - 1);
    run := Then(p, t, run, Poll(Person));
  }

  /** Appends one action at the earliest time at which it can happen. */
  lemma Then(p: Params, t: Time, es: seq<Event>, a: Action) returns (run: seq<Event>)
    requires Feasible(p, Initial(t), es) && After(p, Initial(t), es).running
    requires a == SecondTimer ==> After(p, Initial(t), es).processing
    ensures Feasible(p, Initial(t), run)
    ensures exists at :: After(p, Initial(t), run) == Step(p, After(p, Initial(t), es), Event(at, a))
    ensures Prompt(es) && !a.RpcTimeout? ==> Prompt(run)
  {
    Reachable(p, t, es);
    var s := After(p, Initial(t), es);
    var due :=
      if a.Poll? then s.pollAt.value
      else if a.SecondTimer? then s.secondAt.value
      else s.now;
    var at := if due < s.now then s.now else due;
    Extend(p, Initial(t), es, Event(at, a));
    run := es + [Event(at, a)];
  }

  /** A run to each allowed control state. */
  lemma Construct(p: Params, t: Time, c: Control) returns (run: seq<Event>)
    requires Allowed(p, c)
    ensures Witnesses(p, t, run, c) && Prompt(run)
  {
    run := [];
    if !c.monitor {
      run := Then(p, t, run, Rpc(StopMonitor));
    } else if c.processing || c.status == SECOND_ALERT {
      run := Detect(p, t, run, p.threshold);
      run := Then(p, t, run, Poll(Person));
      if c.status == NO_ALERT {
        run := Then(p, t, run, Rpc(ClearAlertStatus));
      } else if c.status == SECOND_ALERT {
        run := Then(p, t, run, SecondTimer);
      }
    }
    run := Detect(p, t, run, c.count);
  }

  /** A control state is reached by some run if and only if it is allowed. */
  lemma ReachableExactly(p: Params, t: Time, c: Control)
    ensures (exists es :: Witnesses(p, t, es, c)) <==> Allowed(p, c)
  {
    if es :| Witnesses(p, t, es, c) {
      Reachable(p, t, es);
    }
    if Allowed(p, c) {
      var run := Construct(p, t, c);
    }
  }
}
