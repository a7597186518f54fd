/**
  Comparing runs: which commands leave no trace in what the daemon does, what a stop silences and
  what a cancel prevents.
 */
module AlarmErasure {
  import opened Options
  import opened AlarmModel
  import opened AlarmInvariants

  // ---- Commands that leave no trace ----

  /** Queries, clears, unknown commands, timeouts, and a start while monitoring is already on. */
  predicate Traceless(s: State, a: Action) {
    match a
    case Rpc(ClearAlertStatus) => true
    case Rpc(GetMonitorStatus) => true
    case Rpc(GetAlertStatus) => true
    case Rpc(UnknownCommand) => true
    case Rpc(StartMonitor) => s.monitor
    case RpcTimeout => true
    case _ => false
  }

  function Erase(p: Params, s: State, es: seq<Event>): seq<Event> {
    if es == [] then []
    else
      var before := es[..|es| - 1];
      var e := es[|es| - 1];
      Erase(p, s, before) + if Traceless(After(p, s, before), e.act) then [] else [e]
  }

  /** What is sure to be erased, and what is sure to be kept. */
  predicate AlwaysErased(a: Action) {
    || a.RpcTimeout?
    || (a.Rpc? && (a.command.GetMonitorStatus? || a.command.GetAlertStatus?
                   || a.command.ClearAlertStatus? || a.command.UnknownCommand?))
  }

  function Kept(es: seq<Event>): seq<Event> {
    if es == [] then []
    else
      var e := es[|es| - 1];
      Kept(es[..|es| - 1]) + if AlwaysErased(e.act) || e.act == Rpc(StartMonitor) then [] else [e]
  }

  /**
    Nothing is left of the queries, clears, unknown commands and timeouts; everything else is kept,
    in order, but for starts.
   */
  lemma {:induction false} ErasesExactly(p: Params, s: State, es: seq<Event>)
    ensures forall k :: 0 <= k < |Erase(p, s, es)| ==> !AlwaysErased(Erase(p, s, es)[k].act)
    ensures Kept(Erase(p, s, es)) == Kept(es)
  {
    if es != [] {
      var n := |es| - 1;
      ErasesExactly(p, s, es[..n]);
      var before := Erase(p, s, es[..n]);
      assert before + [] == before;
      assert (before + [es[n]])[..|before|] == before;
      hide Step;
    }
  }

  /** The states agree on everything but the displayed status and the time of the last event. */
  predicate SameButDisplay(s: State, s': State) {
    s == s'.(now := s.now, status := s.status)
  }

  lemma TracelessStep(p: Params, s: State, s': State, e: Event)
    requires SameButDisplay(s, s') && Traceless(s, e.act)
    ensures SameButDisplay(Step(p, s, e), s') && Step(p, s, e).now == e.at
  {
  }

  lemma SameSense(p: Params, s: State, s': State, r: Reading)
    requires SameButDisplay(s, s') && s.now == s'.now
    ensures SameButDisplay(Sense(p, s, r), Sense(p, s', r))
    ensures Sense(p, s, r).now == s.now && Sense(p, s', r).now == s.now
  {
  }

  lemma SameObey(s: State, s': State, c: Command)
    requires SameButDisplay(s, s') && s.now == s'.now
    ensures SameButDisplay(Obey(s, c), Obey(s', c)) && Obey(s, c).now == s.now && Obey(s', c).now == s.now
  {
  }

  lemma SameStep(p: Params, s: State, s': State, e: Event)
    requires SameButDisplay(s, s') && s'.now <= s.now && Enabled(s, e)
    ensures Enabled(s', e) && SameButDisplay(Step(p, s, e), Step(p, s', e))
    ensures Step(p, s, e).now == e.at && Step(p, s', e).now == e.at
  {
    var t, t' := s.(now := e.at), s'.(now := e.at);
    hide Sense, Obey;
    match e.act
    case Poll(r) => SameSense(p, t.(pollAt := None), t'.(pollAt := None), r);
    case Rpc(c) => SameObey(t, t', c);
    case _ =>
  }

  /** Erasing the traceless events of a run gives a run with the same log, counter and timers. */
  lemma {:induction false} Erasure(p: Params, s: State, es: seq<Event>)
    requires Feasible(p, s, es)
    ensures Feasible(p, s, Erase(p, s, es))
    ensures SameButDisplay(After(p, s, es), After(p, s, Erase(p, s, es)))
    ensures After(p, s, Erase(p, s, es)).now <= After(p, s, es).now
  {
    hide Step;
    if es != [] {
      var before := es[..|es| - 1];
      var e := es[|es| - 1];
      Erasure(p, s, before);
      var x := After(p, s, before);
      var x' := After(p, s, Erase(p, s, before));
      if Traceless(x, e.act) {
        TracelessStep(p, x, x', e);
        assert Erase(p, s, es) == Erase(p, s, before);
      } else {
        SameStep(p, x, x', e);
        Extend(p, s, Erase(p, s, before), e);
      }
    }
  }

  // ---- The counter depends on the polls alone ----

  function PollsOf(es: seq<Event>): seq<Event> {
    if es == [] then []
    else PollsOf(es[..|es| - 1]) + if es[|es| - 1].act.Poll? then [es[|es| - 1]] else []
  }

  predicate SamePolling(s: State, s': State) {
    && s.count == s'.count
    && s.alerts == s'.alerts
    && (s.running && s'.running ==> s.pollAt == s'.pollAt)
  }

  lemma {:induction false} PollsOnly(p: Params, s: State, es: seq<Event>)
    ensures SamePolling(After(p, s, es), After(p, s, PollsOf(es)))
    ensures After(p, s, es).running ==> s.running
    ensures After(p, s, PollsOf(es)).running == s.running
  {
    if es != [] {
      PollsOnly(p, s, es[..|es| - 1]);
      var before := PollsOf(es[..|es| - 1]);
      var e := es[|es| - 1];
      hide Step;
      StepPolls(p, After(p, s, es[..|es| - 1]), e);
      StepPolls(p, After(p, s, before), e);
      assert (before + [e])[..|before|] == before;
      assert before + [] == before;
    }
  }

  /** Runs with the same polls have the same counter and trigger times, whatever is commanded. */
  lemma CommandsDoNotCount(p: Params, s: State, xs: seq<Event>, ys: seq<Event>)
    requires PollsOf(xs) == PollsOf(ys)
    ensures After(p, s, xs).count == After(p, s, ys).count
    ensures After(p, s, xs).alerts == After(p, s, ys).alerts
  {
    PollsOnly(p, s, xs);
    PollsOnly(p, s, ys);
  }

  // ---- Stop and cancel ----

  /** Once stopped, and until started again, the daemon launches nothing and answers GOOD. */
  lemma {:induction false} StoppedIsSilent(p: Params, s: State, e: Event, es: seq<Event>)
    requires Inv(p, s) && LogInv(p, s) && e.act == Rpc(StopMonitor)
    requires Feasible(p, s, [e] + es)
    requires forall k :: 0 <= k < |es| ==> es[k].act != Rpc(StartMonitor)
    ensures var s' := After(p, s, [e] + es);
            && s'.log == s.log
            && s'.secondAt == None
            && !s'.monitor
            && Reply(s', GetAlertStatus) == Some("GOOD\r\n")
            && Reply(s', GetMonitorStatus) == Some("STOPPING\r\n")
  {
    if es == [] {
      assert [e] + es == [e];
      assert [e][..0] == [];
    } else {
      var before := es[..|es| - 1];
      assert ([e] + es)[..|es|] == [e] + before;
      StoppedIsSilent(p, s, e, before);
      Continued(p, s, [e] + before);
      StaysSilent(p, After(p, s, [e] + before), es[|es| - 1]);
      hide Step;
    }
  }

  lemma StaysSilent(p: Params, s: State, e: Event)
    requires Inv(p, s) && !s.monitor && Enabled(s, e) && e.act != Rpc(StartMonitor)
    ensures var s' := Step(p, s, e); s'.log == s.log && !s'.monitor && s'.secondAt == None && s'.status == NO_ALERT
  {
  }

  /**
    A cancel, stop or termination handled while an alarm is open prevents its second launch in
    every continuation: the next launch, if there is one, is a first launch.
   */
  lemma {:induction false} CancelPrevents(p: Params, s: State, e: Event, es: seq<Event>)
    requires Inv(p, s) && LogInv(p, s) && Cancels(e.act)
    requires Feasible(p, s, [e] + es)
    ensures var log := After(p, s, [e] + es).log;
            && s.log <= log
            && (|log| > |s.log| ==> log[|s.log|].script == First)
            && (|log| == |s.log| ==> !After(p, s, [e] + es).processing)
  {
    hide Step;
    if es == [] {
      assert [e] + es == [e];
      assert [e][..0] == [];
      StepLaunches(p, s, e);
    } else {
      var before := es[..|es| - 1];
      assert ([e] + es)[..|es|] == [e] + before;
      CancelPrevents(p, s, e, before);
      Continued(p, s, [e] + before);
      StepLaunches(p, After(p, s, [e] + before), es[|es| - 1]);
    }
  }
}
