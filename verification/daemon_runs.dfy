/** The theorems about runs of the alarm machine, read as theorems about runs of the daemon. */
module DaemonRuns {
  import opened AlarmModel
  import opened AlarmInvariants
  import opened AlarmCounting
  import opened AlarmHistory
  import opened AlarmTiming
  import opened DaemonModel

  /**
    What the daemon owes to the history it has seen: the log of launches, the counter and the number
    of triggers, the answers to both queries, the spacing of triggers and second launches, and a
    balance of alarms.
   */
  predicate Promised(p: Params, t: Time, seen: seq<Event>, s: State) {
    && s.log == Owed(p, seen, 0)
    && s.count == Current(seen) % (p.threshold + 1)
    && |s.alerts| == Due(p, seen)
    && Reply(s, GetMonitorStatus) == MonitorReply(seen)
    && Reply(s, GetAlertStatus) == AlertReply(p, seen)
    && Spaced(s.alerts, PollSpan(p, p.threshold + 1))
    && Spaced(TimesOf(s.log, Second), Grace(p))
    && CountOf(s.log, First)
       == CountOf(s.log, Second) + Hits(p, Initial(t), seen) + if s.processing then 1 else 0
  }

  /** Whatever connects, hangs up and times out in between, the daemon keeps its promises. */
  lemma DaemonKeepsItsPromises(
      p: Params, rpcTimeout: nat, x: Entry, ds: seq<Daemon>, ms: seq<Moment>, k: nat)
    requires IsRunFrom(p, rpcTimeout, x, ds, ms) && k <= |ms|
    ensures Promised(p, x.at, Seen(ms[..k]), ds[k].alarm)
  {
    RunsOfTheDaemon(p, rpcTimeout, x, ds, ms, k);
    AlarmKeepsItsPromises(p, x.at, Seen(ms[..k]));
    hide *;
  }

  /** At the end of a run its promises are kept, and it can go on unless a signal has been handled. */
  lemma EndOfRun(p: Params, rpcTimeout: nat, x: Entry, ds: seq<Daemon>, ms: seq<Moment>)
    requires IsRunFrom(p, rpcTimeout, x, ds, ms)
    ensures |ds| == |ms| + 1
    ensures Promised(p, x.at, Seen(ms), ds[|ms|].alarm)
    ensures (exists m :: CanHappen(ds[|ms|], m)) <==> ds[|ms|].alarm.running
  {
    hide *;
    RunLength(p, rpcTimeout, x, ds, ms);
    DaemonKeepsItsPromises(p, rpcTimeout, x, ds, ms, |ms|);
    RunsOfTheDaemon(p, rpcTimeout, x, ds, ms, |ms|);
    LoopEndsExactly(p, ds[|ms|]);
    assert ms[..|ms|] == ms;
  }

  lemma AlarmKeepsItsPromises(p: Params, t: Time, seen: seq<Event>)
    requires Feasible(p, Initial(t), seen)
    ensures Promised(p, t, seen, After(p, Initial(t), seen))
  {
    hide Feasible, After, Initial, Owed, Current, Due, MonitorReply, AlertReply, Reply;
    hide Spaced, PollSpan, TimesOf, CountOf, Hits, Grace;
    LogIsOwed(p, t, seen);
    ExactCount(p, t, seen);
    AnswersFollow(p, t, seen);
    TriggersApart(p, t, seen);
    SecondsApart(p, t, seen);
    Conservation(p, t, seen);
  }

  /** In any window of time the daemon triggers, and launches the second script, only so often. */
  lemma DaemonWindows(
      p: Params, rpcTimeout: nat, x: Entry, ds: seq<Daemon>, ms: seq<Moment>, k: nat, lo: Time, span: nat)
    requires IsRunFrom(p, rpcTimeout, x, ds, ms) && k <= |ms|
    ensures var gap := PollSpan(p, p.threshold + 1);
            gap > 0 && CountIn(ds[k].alarm.alerts, lo, lo + span) <= span / gap + 1
    ensures CountIn(TimesOf(ds[k].alarm.log, Second), lo, lo + span) <= span / Grace(p) + 1
  {
    RunsOfTheDaemon(p, rpcTimeout, x, ds, ms, k);
    TriggerWindow(p, x.at, Seen(ms[..k]), lo, span);
    SecondWindow(p, x.at, Seen(ms[..k]), lo, span);
    hide *;
  }

  lemma {:induction false} SeenConcat(a: seq<Moment>, b: seq<Moment>)
    ensures Seen(a + b) == Seen(a) + Seen(b)
  {
    if b == [] {
      assert a + b == a;
    } else {
      hide SeenAs;
      assert (a + b)[..|a + b| - 1] == a + b[..|b| - 1];
      SeenConcat(a, b[..|b| - 1]);
    }
  }

  lemma SeenBetween(ms: seq<Moment>, j: nat, k: nat)
    requires j <= k <= |ms|
    ensures Seen(ms[..k]) == Seen(ms[..j]) + Seen(ms[j..k])
  {
    SeenConcat(ms[..j], ms[j..k]);
    assert ms[..j] + ms[j..k] == ms[..k];
  }

  lemma AlarmInv(p: Params, d: Daemon)
    requires DaemonModel.Inv(p, d)
    ensures AlarmInvariants.Inv(p, d.alarm) && LogInv(p, d.alarm)
  {
  }

  /** Between two points of a run, the alarm runs as the alarm machine does. */
  lemma Between(
      p: Params, rpcTimeout: nat, x: Entry, ds: seq<Daemon>, ms: seq<Moment>, j: nat, k: nat)
    requires IsRunFrom(p, rpcTimeout, x, ds, ms) && j <= k <= |ms|
    ensures AlarmInvariants.Inv(p, ds[j].alarm) && LogInv(p, ds[j].alarm)
    ensures Feasible(p, ds[j].alarm, Seen(ms[j..k]))
    ensures ds[k].alarm == After(p, ds[j].alarm, Seen(ms[j..k]))
  {
    hide *;
    RunLength(p, rpcTimeout, x, ds, ms);
    RunsOfTheDaemon(p, rpcTimeout, x, ds, ms, j);
    RunsOfTheDaemon(p, rpcTimeout, x, ds, ms, k);
    AlarmInv(p, ds[j]);
    SeenBetween(ms, j, k);
    AfterConcat(p, Initial(x.at), Seen(ms[..j]), Seen(ms[j..k]));
  }

  /**
    Between any two points of a run with no cancel, stop or signal between them, first launches are
    at least the grace time apart, and a window of time holds only so many.
   */
  lemma DaemonFirsts(
      p: Params, rpcTimeout: nat, x: Entry, ds: seq<Daemon>, ms: seq<Moment>, j: nat, k: nat,
      lo: Time, span: nat)
    requires IsRunFrom(p, rpcTimeout, x, ds, ms) && j <= k <= |ms|
    requires NoCancel(Seen(ms[j..k]))
    ensures ds[j].alarm.log <= ds[k].alarm.log
    ensures var firsts := TimesOf(ds[k].alarm.log[|ds[j].alarm.log|..], First);
            Spaced(firsts, Grace(p)) && CountIn(firsts, lo, lo + span) <= span / Grace(p) + 1
  {
    hide *;
    RunLength(p, rpcTimeout, x, ds, ms);
    Between(p, rpcTimeout, x, ds, ms, j, k);
    FirstsApart(p, ds[j].alarm, Seen(ms[j..k]));
    FirstWindow(p, ds[j].alarm, Seen(ms[j..k]), lo, span);
  }
}
