/**
  Timed bounds that hold on every run: how close together triggers and launches can be, and how
  many of them fit into a window of time.
 */
module AlarmTiming {
  import opened Options
  import opened AlarmModel
  import opened Arithmetic
  import opened AlarmInvariants

  // ---- Windows ----

  predicate Spaced(ts: seq<Time>, gap: nat) {
    forall i :: 0 < i < |ts| ==> ts[i - 1] + gap <= ts[i]
  }

  function CountIn(ts: seq<Time>, lo: Time, hi: Time): nat {
    if ts == [] then 0
    else CountIn(ts[..|ts| - 1], lo, hi) + if lo <= ts[|ts| - 1] <= hi then 1 else 0
  }

  lemma {:induction false} WindowSpan(ts: seq<Time>, gap: nat, lo: Time, hi: Time)
    requires Spaced(ts, gap)
    ensures var n := CountIn(ts, lo, hi);
            n > 0 ==> lo + gap * (n - 1) <= hi && lo + gap * (n - 1) <= ts[|ts| - 1]
  {
    if ts != [] {
      var before := ts[..|ts| - 1];
      WindowSpan(before, gap, lo, hi);
      var m := CountIn(before, lo, hi);
      if m > 0 {
        assert before[|before| - 1] + gap <= ts[|ts| - 1];
        assert gap * m == gap * (m - 1) + gap;
      }
    }
  }

  /** A window of length `span` holds at most `span / gap + 1` of the times. */
  lemma Window(ts: seq<Time>, gap: nat, lo: Time, span: nat)
    requires gap > 0 && Spaced(ts, gap)
    ensures CountIn(ts, lo, lo + span) <= span / gap + 1
  {
    WindowSpan(ts, gap, lo, lo + span);
    var n := CountIn(ts, lo, lo + span);
    if n > 0 {
      QuotientBound(n - 1, gap, span);
    }
  }

  function InWindow(ts: seq<Time>, lo: Time, hi: Time): set<int> {
    set i | 0 <= i < |ts| && lo <= ts[i] <= hi
  }

  lemma NextInWindow(ts: seq<Time>, lo: Time, hi: Time)
    requires ts != []
    ensures var n := |ts| - 1;
            var before := InWindow(ts[..n], lo, hi);
            n !in before && InWindow(ts, lo, hi) == if lo <= ts[n] <= hi then before + {n} else before
  {
    var n := |ts| - 1;
    assert forall i :: 0 <= i < n ==> ts[..n][i] == ts[i];
  }

  /** The count of a window is the number of entries in it. */
  lemma {:induction false} CountIsCardinality(ts: seq<Time>, lo: Time, hi: Time)
    ensures CountIn(ts, lo, hi) == |InWindow(ts, lo, hi)|
  {
    if ts == [] {
      assert InWindow(ts, lo, hi) == {};
    } else {
      hide InWindow;
      CountIsCardinality(ts[..|ts| - 1], lo, hi);
      NextInWindow(ts, lo, hi);
    }
  }

  /** Increasing indices of exactly the launches of a script, and their times. */
  predicate LaunchesAt(log: seq<Launch>, script: Script, ks: seq<int>, ts: seq<Time>) {
    && |ts| == |ks|
    && (forall j :: 0 <= j < |ks| ==> 0 <= ks[j] < |log| && log[ks[j]] == Launch(ts[j], script))
    && (forall i, j :: 0 <= i < j < |ks| ==> ks[i] < ks[j])
    && (forall k :: 0 <= k < |log| ==> (k in ks <==> log[k].script == script))
  }

  lemma NextLaunchAt(log: seq<Launch>, script: Script, ks: seq<int>, ts: seq<Time>)
    requires log != [] && LaunchesAt(log[..|log| - 1], script, ks, ts)
    ensures var n := |log| - 1;
            if log[n].script == script then LaunchesAt(log, script, ks + [n], ts + [log[n].at])
            else LaunchesAt(log, script, ks, ts)
  {
    var n := |log| - 1;
    assert forall k :: 0 <= k < n ==> log[..n][k] == log[k];
    assert n !in ks;
  }

  /** The times of a script are those of its launches, in order. */
  lemma {:induction false} TimesAreLaunches(log: seq<Launch>, script: Script) returns (ks: seq<int>)
    ensures LaunchesAt(log, script, ks, TimesOf(log, script))
  {
    ks := [];
    if log != [] {
      hide LaunchesAt;
      var n := |log| - 1;
      ks := TimesAreLaunches(log[..n], script);
      NextLaunchAt(log, script, ks, TimesOf(log[..n], script));
      if log[n].script == script {
        ks := ks + [n];
      } else {
        assert TimesOf(log[..n], script) + [] == TimesOf(log[..n], script);
      }
    }
  }

  // ---- Triggers ----

  /** The least time that `n` polls take. */
  function PollSpan(p: Params, n: nat): nat {
    p.pollInterval * n
  }

  lemma PollSpanGrows(p: Params, n: nat)
    ensures PollSpan(p, n + 1) == PollSpan(p, n) + p.pollInterval
    ensures PollSpan(p, 1) == p.pollInterval
    ensures PollSpan(p, 1) <= PollSpan(p, n + 1)
  {
    if n > 0 {
      PollSpanGrows(p, n - 1);
    }
  }

  /** The next poll is due late enough for the detections counted since the last trigger. */
  predicate Paced(p: Params, s: State) {
    && Spaced(s.alerts, PollSpan(p, p.threshold + 1))
    && (s.alerts != [] && s.pollAt.Some? ==>
          s.alerts[|s.alerts| - 1] + PollSpan(p, s.count + 1) <= s.pollAt.value)
  }

  lemma StepKeepsPaced(p: Params, s: State, e: Event)
    requires Inv(p, s) && Paced(p, s) && Enabled(s, e)
    ensures Paced(p, Step(p, s, e))
  {
    hide Step, PollSpan;
    StepPolls(p, s, e);
    PollSpanGrows(p, s.count);
    PollSpanGrows(p, s.count + 1);
  }

  /** Successive triggers are at least `threshold + 1` poll intervals apart. */
  lemma {:induction false} TriggersApart(p: Params, t: Time, es: seq<Event>)
    requires Feasible(p, Initial(t), es)
    ensures Paced(p, After(p, Initial(t), es))
    ensures Spaced(After(p, Initial(t), es).alerts, PollSpan(p, p.threshold + 1))
  {
    hide Step;
    if es != [] {
      var before := es[..|es| - 1];
      TriggersApart(p, t, before);
      Reachable(p, t, before);
      StepKeepsPaced(p, After(p, Initial(t), before), es[|es| - 1]);
    }
  }

  lemma TriggerWindow(p: Params, t: Time, es: seq<Event>, lo: Time, span: nat)
    requires Feasible(p, Initial(t), es)
    ensures var gap := PollSpan(p, p.threshold + 1);
            gap > 0 && CountIn(After(p, Initial(t), es).alerts, lo, lo + span) <= span / gap + 1
  {
    TriggersApart(p, t, es);
    PollSpanGrows(p, p.threshold);
    Window(After(p, Initial(t), es).alerts, PollSpan(p, p.threshold + 1), lo, span);
  }

  // ---- Launches ----

  /** The launch times of one of the two scripts. */
  function TimesOf(log: seq<Launch>, script: Script): seq<Time> {
    if log == [] then []
    else
      TimesOf(log[..|log| - 1], script) +
      if log[|log| - 1].script == script then [log[|log| - 1].at] else []
  }

  lemma TimesOfAppend(log: seq<Launch>, l: Launch, script: Script)
    ensures TimesOf(log + [l], script) == TimesOf(log, script) + if l.script == script then [l.at] else []
  {
    assert (log + [l])[..|log|] == log;
  }

  /** The second launches are spaced, and an open alarm can only be answered after another gap. */
  predicate SecondsSpaced(p: Params, s: State) {
    var ts := TimesOf(s.log, Second);
    && Spaced(ts, Grace(p))
    && (ts != [] ==> ts[|ts| - 1] <= s.now)
    && (ts != [] && s.secondAt.Some? ==> ts[|ts| - 1] + Grace(p) <= s.secondAt.value)
  }

  lemma StepKeepsSecondsSpaced(p: Params, s: State, e: Event)
    requires Inv(p, s) && SecondsSpaced(p, s) && Enabled(s, e)
    ensures SecondsSpaced(p, Step(p, s, e))
  {
    hide Step;
    StepLaunches(p, s, e);
    hide Grace, TimesOf;
    var l := Launched(p, s, e);
    if l.Some? {
      TimesOfAppend(s.log, Launch(e.at, l.value), Second);
    }
  }

  /** Second launches are at least the grace time apart, whatever is cancelled between them. */
  lemma {:induction false} SecondsApart(p: Params, t: Time, es: seq<Event>)
    requires Feasible(p, Initial(t), es)
    ensures SecondsSpaced(p, After(p, Initial(t), es))
    ensures Spaced(TimesOf(After(p, Initial(t), es).log, Second), Grace(p))
  {
    hide Step;
    if es != [] {
      var before := es[..|es| - 1];
      SecondsApart(p, t, before);
      Reachable(p, t, before);
      StepKeepsSecondsSpaced(p, After(p, Initial(t), before), es[|es| - 1]);
    }
  }

  lemma SecondWindow(p: Params, t: Time, es: seq<Event>, lo: Time, span: nat)
    requires Feasible(p, Initial(t), es)
    ensures CountIn(TimesOf(After(p, Initial(t), es).log, Second), lo, lo + span)
            <= span / Grace(p) + 1
  {
    SecondsApart(p, t, es);
    Window(TimesOf(After(p, Initial(t), es).log, Second), Grace(p), lo, span);
  }

  predicate NoCancel(es: seq<Event>) {
    forall k :: 0 <= k < |es| ==> !Cancels(es[k].act)
  }

  /** First launches made after state `s` are spaced; the last one is open or its time is over. */
  predicate FirstsSpaced(p: Params, s: State, s': State) {
    s.log <= s'.log &&
    var ts := TimesOf(s'.log[|s.log|..], First);
    && Spaced(ts, Grace(p))
    && (ts != [] ==>
          if s'.secondAt.Some? then s'.secondAt.value == ts[|ts| - 1] + Grace(p)
          else ts[|ts| - 1] + Grace(p) <= s'.now)
  }

  lemma StepKeepsFirstsSpaced(p: Params, s: State, s': State, e: Event)
    requires Inv(p, s') && FirstsSpaced(p, s, s') && Enabled(s', e) && !Cancels(e.act)
    ensures FirstsSpaced(p, s, Step(p, s', e))
  {
    hide Step;
    StepLaunches(p, s', e);
    var l := Launched(p, s', e);
    hide Grace, TimesOf;
    if l.Some? {
      var added := s'.log[|s.log|..];
      assert (s'.log + [Launch(e.at, l.value)])[|s.log|..] == added + [Launch(e.at, l.value)];
      TimesOfAppend(added, Launch(e.at, l.value), First);
    }
  }

  /**
    From any reachable state, as long as nothing is cancelled or stopped, first launches are at
    least the grace time apart.
   */
  lemma {:induction false} FirstsApart(p: Params, s: State, es: seq<Event>)
    requires Inv(p, s) && LogInv(p, s) && Feasible(p, s, es) && NoCancel(es)
    ensures FirstsSpaced(p, s, After(p, s, es))
    ensures Spaced(TimesOf(After(p, s, es).log[|s.log|..], First), Grace(p))
  {
    hide Step;
    if es == [] {
      assert s.log[|s.log|..] == [];
    } else {
      var before := es[..|es| - 1];
      FirstsApart(p, s, before);
      Continued(p, s, before);
      StepKeepsFirstsSpaced(p, s, After(p, s, before), es[|es| - 1]);
    }
  }

  lemma FirstWindow(p: Params, s: State, es: seq<Event>, lo: Time, span: nat)
    requires Inv(p, s) && LogInv(p, s) && Feasible(p, s, es) && NoCancel(es)
    ensures s.log <= After(p, s, es).log
    ensures CountIn(TimesOf(After(p, s, es).log[|s.log|..], First), lo, lo + span)
            <= span / Grace(p) + 1
  {
    FirstsApart(p, s, es);
    Window(TimesOf(After(p, s, es).log[|s.log|..], First), Grace(p), lo, span);
  }

  // ---- The deadline of an open alarm ----

  /** An alarm that is not answered or called off keeps the deadline set at its first launch. */
  lemma {:induction false} DeadlineFixed(p: Params, s: State, es: seq<Event>)
    requires Inv(p, s) && LogInv(p, s) && s.processing && Feasible(p, s, es) && NoCancel(es)
    requires forall k :: 0 <= k < |es| ==> es[k].act != SecondTimer
    ensures After(p, s, es).secondAt == s.secondAt
    ensures After(p, s, es).log == s.log
  {
    hide Step;
    if es != [] {
      var before := es[..|es| - 1];
      DeadlineFixed(p, s, before);
      Continued(p, s, before);
      StepLaunches(p, After(p, s, before), es[|es| - 1]);
    }
  }

  predicate Undisturbed(es: seq<Event>, from: nat) {
    forall k :: from <= k < |es| ==> !Cancels(es[k].act) && es[k].act != SecondTimer
  }

  lemma UndisturbedExtends(es: seq<Event>, from: nat)
    requires es != [] && Undisturbed(es[..|es| - 1], from)
    requires !Cancels(es[|es| - 1].act) && es[|es| - 1].act != SecondTimer
    ensures Undisturbed(es, from)
  {
    var before := es[..|es| - 1];
    forall k | from <= k < |es|
      ensures !Cancels(es[k].act) && es[k].act != SecondTimer
    {
      if k < |before| {
        assert before[k] == es[k];
      }
    }
  }

  /** Event `m` opened the alarm that is still open at the end of the run. */
  predicate OpenedAt(p: Params, s: State, es: seq<Event>, m: nat) {
    && m < |es|
    && After(p, s, es).secondAt == Some(es[m].at + Grace(p))
    && After(p, s, es).log == After(p, s, es[..m]).log + [Launch(es[m].at, First)]
    && Undisturbed(es, m + 1)
  }

  lemma StepKeepsOpenedAt(p: Params, s: State, es: seq<Event>, m: nat)
    requires es != [] && OpenedAt(p, s, es[..|es| - 1], m)
    requires After(p, s, es[..|es| - 1]).processing && After(p, s, es).processing
    ensures OpenedAt(p, s, es, m)
  {
    hide Step;
    var before := es[..|es| - 1];
    var e := es[|es| - 1];
    StepLaunches(p, After(p, s, before), e);
    assert before[..m] == es[..m];
    UndisturbedExtends(es, m + 1);
  }

  /**
    An open alarm was opened by one first launch, the last entry of the log, and nothing since
    has called it off.
   */
  lemma {:induction false} OpenSince(p: Params, t: Time, es: seq<Event>) returns (m: nat)
    requires Feasible(p, Initial(t), es) && After(p, Initial(t), es).processing
    ensures OpenedAt(p, Initial(t), es, m)
  {
    hide Step;
    var before := es[..|es| - 1];
    if After(p, Initial(t), before).processing {
      m := OpenSince(p, t, before);
      StepKeepsOpenedAt(p, Initial(t), es, m);
    } else {
      m := |es| - 1;
      StepLaunches(p, After(p, Initial(t), before), es[m]);
    }
  }

  /**
    Every second launch answers the first launch directly before it in the log: that launch was
    made at event `m`, at least the grace time earlier, and nothing in between called it off.
   */
  lemma SecondAnswersFirst(p: Params, t: Time, es: seq<Event>, n: nat) returns (m: nat)
    requires Feasible(p, Initial(t), es) && n < |es| && es[n].act == SecondTimer
    ensures m < n && es[m].at + Grace(p) <= es[n].at
    ensures After(p, Initial(t), es[..n + 1]).log
            == After(p, Initial(t), es[..m]).log + [Launch(es[m].at, First), Launch(es[n].at, Second)]
    ensures Undisturbed(es[..n], m + 1)
  {
    hide Step;
    RunAt(p, Initial(t), es, n);
    Reachable(p, t, es[..n]);
    m := OpenSince(p, t, es[..n]);
    assert es[..n][..m] == es[..m];
    StepLaunches(p, After(p, Initial(t), es[..n]), es[n]);
  }
}
