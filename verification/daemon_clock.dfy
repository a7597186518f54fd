/** When the events of the daemon can happen, in seconds and microseconds, and which signals end it. */
module DaemonClock {
  import opened Options
  import opened AlarmModel
  import AI = AlarmInvariants
  import AT = AlarmTiming
  import opened SessionModel
  import opened ListenerModel
  import opened DaemonModel

  // ---- Signals ----

  /** While the daemon runs each of the three signals can be handled at any time, and only then. */
  lemma EverySignal(p: Params, d: Daemon)
    requires DaemonModel.Inv(p, d)
    ensures d.alarm.running <==>
            forall s: Signal, t: Time :: t >= d.now ==> CanHappen(d, Moment(t, Signalled(s)))
  {
    assert CanHappen(d, Moment(d.now, Signalled(Int))) ==> d.alarm.running;
    if d.alarm.running {
      forall s: Signal, t: Time | t >= d.now
        ensures CanHappen(d, Moment(t, Signalled(s)))
      {
        match s {
          case Hup =>
          case Term =>
          case Int =>
        }
      }
    }
  }

  /** Once one is handled, none of them is. */
  lemma OneSignal(p: Params, rpcTimeout: nat, d: Daemon, m: Moment, s: Signal, t: Time)
    requires DaemonModel.Inv(p, d) && CanHappen(d, m) && m.input.Signalled?
    ensures !CanHappen(Next(p, rpcTimeout, d, m), Moment(t, Signalled(s)))
  {
    hide NextNet, NextAlarm, DaemonModel.Inv;
  }

  // ---- Polls ----

  /** When the next poll is due: two seconds after the start, then one interval after each poll. */
  function PollDue(p: Params, start: Time, ms: seq<Moment>): Time {
    if ms == [] then start + 2_000_000
    else if ms[|ms| - 1].input.PollFires? then ms[|ms| - 1].at + p.pollInterval
    else PollDue(p, start, ms[..|ms| - 1])
  }

  lemma PollMoves(p: Params, s: State, m: Moment)
    ensures NextAlarm(p, s, m).pollAt
            == if m.input.PollFires? then Some(m.at + p.pollInterval)
               else if m.input.Signalled? then None
               else s.pollAt
  {
    if Meaning(m.input).Some? {
      AI.StepPolls(p, s, Event(m.at, Meaning(m.input).value));
    }
    hide Step;
  }

  lemma {:induction false} PollAlwaysDue(
      p: Params, rpcTimeout: nat, x: Entry, ds: seq<Daemon>, ms: seq<Moment>, k: nat)
    requires IsRunFrom(p, rpcTimeout, x, ds, ms) && k <= |ms|
    ensures |ds| == |ms| + 1
    ensures ds[k].alarm.pollAt.Some? ==> ds[k].alarm.pollAt == Some(PollDue(p, x.at, ms[..k]))
    decreases k
  {
    hide IsRunFrom, CanHappen, Next, NextAlarm;
    RunLength(p, rpcTimeout, x, ds, ms);
    if k == 0 {
      StartOfRun(p, rpcTimeout, x, ds, ms);
    } else {
      PollAlwaysDue(p, rpcTimeout, x, ds, ms, k - 1);
      StepOfRun(p, rpcTimeout, x, ds, ms, k - 1);
      PollMoves(p, ds[k - 1].alarm, ms[k - 1]);
      assert ms[..k][..k - 1] == ms[..k - 1];
    }
  }

  /** The daemon can poll at any time from then on, and at no other time. */
  lemma PollsExactly(p: Params, rpcTimeout: nat, x: Entry, ds: seq<Daemon>, ms: seq<Moment>, k: nat,
                     t: Time, r: Reading)
    requires IsRunFrom(p, rpcTimeout, x, ds, ms) && k <= |ms|
    ensures CanHappen(ds[k], Moment(t, PollFires(r)))
            <==> ds[k].alarm.running && t >= ds[k].now && t >= PollDue(p, x.at, ms[..k])
  {
    PollAlwaysDue(p, rpcTimeout, x, ds, ms, k);
    RunsOfTheDaemon(p, rpcTimeout, x, ds, ms, k);
  }

  // ---- The second alert ----

  /**
    While an alarm is open, and only then, the second script can run: from `cancelWait` seconds after
    the first script on, which is the last launch.
   */
  lemma SecondExactly(p: Params, d: Daemon, t: Time)
    requires DaemonModel.Inv(p, d)
    ensures CanHappen(d, Moment(t, SecondFires)) ==> d.alarm.processing
    ensures d.alarm.processing ==>
              var log := d.alarm.log;
              && log != [] && log[|log| - 1].script == First
              && (CanHappen(d, Moment(t, SecondFires))
                  <==> t >= d.now && t >= log[|log| - 1].at + p.cancelWait * 1_000_000)
  {
  }

  /** On every run a second launch comes `cancelWait` seconds after the first one before it, or later. */
  lemma SecondsWait(p: Params, rpcTimeout: nat, x: Entry, ds: seq<Daemon>, ms: seq<Moment>, k: nat, j: nat)
    requires IsRunFrom(p, rpcTimeout, x, ds, ms) && k <= |ms|
    requires j < |ds[k].alarm.log| && ds[k].alarm.log[j].script == Second
    ensures var log := ds[k].alarm.log;
            j > 0 && log[j - 1].script == First && log[j - 1].at + p.cancelWait * 1_000_000 <= log[j].at
  {
    RunsOfTheDaemon(p, rpcTimeout, x, ds, ms, k);
    assert AI.Paired(p, ds[k].alarm.log, j);
  }

  /** On every run any two second launches are `cancelWait` seconds apart, or more. */
  lemma SecondLaunchesWait(p: Params, rpcTimeout: nat, x: Entry, ds: seq<Daemon>, ms: seq<Moment>, k: nat,
                           i: nat, j: nat)
    requires IsRunFrom(p, rpcTimeout, x, ds, ms) && k <= |ms|
    requires i < j < |ds[k].alarm.log|
    requires ds[k].alarm.log[i].script == ds[k].alarm.log[j].script == Second
    ensures ds[k].alarm.log[i].at + p.cancelWait * 1_000_000 <= ds[k].alarm.log[j].at
  {
    RunsOfTheDaemon(p, rpcTimeout, x, ds, ms, k);
    assert AI.Paired(p, ds[k].alarm.log, j);
  }

  /** On every run successive triggers are `threshold + 1` poll intervals apart, or more. */
  lemma TriggersWait(p: Params, rpcTimeout: nat, x: Entry, ds: seq<Daemon>, ms: seq<Moment>, k: nat, j: nat)
    requires IsRunFrom(p, rpcTimeout, x, ds, ms) && k <= |ms|
    requires 0 < j < |ds[k].alarm.alerts|
    ensures ds[k].alarm.alerts[j - 1] + p.pollInterval * (p.threshold + 1) <= ds[k].alarm.alerts[j]
  {
    RunsOfTheDaemon(p, rpcTimeout, x, ds, ms, k);
    AT.TriggersApart(p, x.at, Seen(ms[..k]));
    assert AT.PollSpan(p, p.threshold + 1) == p.pollInterval * (p.threshold + 1);
  }

  // ---- Sessions ----

  /** The events that release a slot. */
  predicate Releases(input: Input, s: nat) {
    match input
    case Speaks(k, _) => k == s
    case HangsUp(k) => k == s
    case Expires(k) => k == s
    case Signalled(_) => true
    case _ => false
  }

  /** A successful connection at moment `m` leaves slot `s` with a deadline `rpcTimeout` seconds later. */
  predicate Takes(rpcTimeout: nat, m: Moment, s: nat, slot: Slot) {
    && m.input.Connects? && m.input.listener == s / 10 && m.input.attempt.Succeeds?
    && slot.sd == m.input.attempt.fd
    && slot.event == Some(m.at + rpcTimeout * 1_000_000)
  }

  /** An event leaves a taken slot as it was, or has just taken it. */
  lemma SlotStep(p: Params, d: Daemon, rpcTimeout: nat, m: Moment, s: nat)
    requires DaemonModel.Inv(p, d) && CanHappen(d, m) && s < 100
    ensures |NextNet(d.net, rpcTimeout, m).slots| == |d.net.slots| == 100
    ensures var slot := NextNet(d.net, rpcTimeout, m).slots[s];
            slot.sd != -1 ==>
              || (slot == d.net.slots[s] && !Releases(m.input, s))
              || (d.net.slots[s].sd == -1 && Takes(rpcTimeout, m, s, slot))
  {
    RegisteredWhileRunning(d.net);
    if m.input.Signalled? {
      StopDrains(d.net);
    }
    hide SessionModel.Inv, Stop, FreeFrom;
  }

  /** Slot `s` was taken at event `i` of a run, before event `k`, and nothing has released it since. */
  predicate TakenAt(rpcTimeout: nat, ms: seq<Moment>, k: nat, i: nat, s: nat, slot: Slot) {
    && i < k <= |ms|
    && Takes(rpcTimeout, ms[i], s, slot)
    && forall j :: i < j < k ==> !Releases(ms[j].input, s)
  }

  /** On every run a taken slot was taken by a connection, whose deadline it has. */
  lemma {:induction false} TakenSince(
      p: Params, rpcTimeout: nat, x: Entry, ds: seq<Daemon>, ms: seq<Moment>, k: nat, s: nat)
    returns (i: nat)
    requires IsRunFrom(p, rpcTimeout, x, ds, ms) && k <= |ms|
    requires |ds[k].net.slots| == 100 && s < 100 && ds[k].net.slots[s].sd != -1
    ensures TakenAt(rpcTimeout, ms, k, i, s, ds[k].net.slots[s])
    decreases k
  {
    RunLength(p, rpcTimeout, x, ds, ms);
    if k == 0 {
      NothingTaken(p, rpcTimeout, x, ds, ms, s);
    } else {
      RunStep(p, rpcTimeout, x, ds, ms, k - 1, s);
      hide IsRunFrom, Takes, Releases;
      if Takes(rpcTimeout, ms[k - 1], s, ds[k].net.slots[s]) {
        i := k - 1;
      } else {
        i := TakenSince(p, rpcTimeout, x, ds, ms, k - 1, s);
      }
    }
  }

  lemma NothingTaken(p: Params, rpcTimeout: nat, x: Entry, ds: seq<Daemon>, ms: seq<Moment>, s: nat)
    requires IsRunFrom(p, rpcTimeout, x, ds, ms) && s < 100
    ensures |ds[0].net.slots| == 100 && ds[0].net.slots[s].sd == -1
  {
    hide Sockets, Changes, FreshSockets;
  }

  lemma RunStep(p: Params, rpcTimeout: nat, x: Entry, ds: seq<Daemon>, ms: seq<Moment>, k: nat, s: nat)
    requires IsRunFrom(p, rpcTimeout, x, ds, ms) && k < |ms| && s < 100
    ensures |ds| == |ms| + 1 && |ds[k].net.slots| == |ds[k + 1].net.slots| == 100
    ensures var slot := ds[k + 1].net.slots[s];
            slot.sd != -1 ==>
              || (slot == ds[k].net.slots[s] && !Releases(ms[k].input, s))
              || Takes(rpcTimeout, ms[k], s, slot)
  {
    hide *;
    RunLength(p, rpcTimeout, x, ds, ms);
    StepOfRun(p, rpcTimeout, x, ds, ms, k);
    RunsOfTheDaemon(p, rpcTimeout, x, ds, ms, k);
    SlotStep(p, ds[k], rpcTimeout, ms[k], s);
  }

  /**
    On every run a client in a slot is turned away, at the earliest, `rpcTimeout` seconds after it
    connected, and at any time from then on.
   */
  lemma ExpiresExactly(
      p: Params, rpcTimeout: nat, x: Entry, ds: seq<Daemon>, ms: seq<Moment>, k: nat, s: nat)
    returns (i: nat)
    requires IsRunFrom(p, rpcTimeout, x, ds, ms) && k <= |ms|
    requires |ds[k].net.slots| == 100 && s < 100 && ds[k].net.slots[s].sd != -1
    ensures TakenAt(rpcTimeout, ms, k, i, s, ds[k].net.slots[s])
    ensures forall t: Time ::
              CanHappen(ds[k], Moment(t, Expires(s)))
              <==> t >= ds[k].now && t >= ms[i].at + rpcTimeout * 1_000_000
  {
    hide *;
    RunLength(p, rpcTimeout, x, ds, ms);
    i := TakenSince(p, rpcTimeout, x, ds, ms, k, s);
    RunsOfTheDaemon(p, rpcTimeout, x, ds, ms, k);
    ShapedOf(p, ds[k]);
    TakenExpires(rpcTimeout, ms, k, i, s, ds[k]);
  }

  lemma ShapedOf(p: Params, d: Daemon)
    requires DaemonModel.Inv(p, d)
    ensures Shaped(d.net)
  {
  }

  lemma TakenExpires(rpcTimeout: nat, ms: seq<Moment>, k: nat, i: nat, s: nat, d: Daemon)
    requires Shaped(d.net) && s < SLOTS && TakenAt(rpcTimeout, ms, k, i, s, d.net.slots[s])
    ensures i < |ms|
    ensures forall t: Time ::
              CanHappen(d, Moment(t, Expires(s)))
              <==> t >= d.now && t >= ms[i].at + rpcTimeout * 1_000_000
  {
  }

  /** On every run a timeout comes `rpcTimeout` seconds after the connection it ends, or later. */
  lemma TimeoutsWait(
      p: Params, rpcTimeout: nat, x: Entry, ds: seq<Daemon>, ms: seq<Moment>, k: nat, s: nat)
    returns (i: nat)
    requires IsRunFrom(p, rpcTimeout, x, ds, ms) && k < |ms| && ms[k].input == Expires(s)
    ensures i < k && ms[i].input.Connects? && ms[i].input.listener == s / 10
    ensures ms[i].input.attempt.Succeeds?
    ensures ms[i].at + rpcTimeout * 1_000_000 <= ms[k].at
    ensures forall j :: i < j < k ==> !Releases(ms[j].input, s)
  {
    StepOfRun(p, rpcTimeout, x, ds, ms, k);
    RunsOfTheDaemon(p, rpcTimeout, x, ds, ms, k);
    RegisteredWhileRunning(ds[k].net);
    hide IsRunFrom, Next;
    i := TakenSince(p, rpcTimeout, x, ds, ms, k, s);
  }

  /** A connection that succeeds takes the first free slot of its listener, if there is one. */
  lemma ConnectionTakes(p: Params, rpcTimeout: nat, d: Daemon, m: Moment)
    requires DaemonModel.Inv(p, d) && CanHappen(d, m) && m.input.Connects?
    ensures var i := m.input.listener;
            var d' := Next(p, rpcTimeout, d, m);
            || ((forall s :: 10 * i <= s < 10 * i + 10 ==> d.net.slots[s].sd != -1) && d'.net == d.net)
            || exists s :: 10 * i <= s < 10 * i + 10 && d.net.slots[s].sd == -1
                 && (forall r :: 10 * i <= r < s ==> d.net.slots[r].sd != -1)
                 && (m.input.attempt.Succeeds? ==> Takes(rpcTimeout, m, s, d'.net.slots[s]))
                 && (!m.input.attempt.Succeeds? ==> d'.net.slots[s].sd == -1)
  {
    var s := FirstFree(d.net, m.input.listener);
    hide SessionModel.Inv, NextAlarm, FreeFrom, FirstFree;
  }

  /**
    While the daemon runs, a connection can arrive at each of its listeners, of which there are as many
    as it started with; whoever has a slot can speak or hang up at any time; and nothing else can.
   */
  lemma ClientsExactly(
      p: Params, rpcTimeout: nat, x: Entry, ds: seq<Daemon>, ms: seq<Moment>, k: nat,
      t: Time, i: nat, a: Attempt, s: nat, data: string)
    requires IsRunFrom(p, rpcTimeout, x, ds, ms) && k <= |ms|
    ensures var d := ds[k];
            && |d.net.slots| == 100
            && (CanHappen(d, Moment(t, Connects(i, a)))
                <==> d.alarm.running && i < |x.Kept()| && Fresh(d.net, a) && t >= d.now)
            && (CanHappen(d, Moment(t, Speaks(s, data)))
                <==> s < 100 && d.net.slots[s].sd != -1 && data != [] && t >= d.now)
            && (CanHappen(d, Moment(t, HangsUp(s)))
                <==> s < 100 && d.net.slots[s].sd != -1 && t >= d.now)
  {
    hide *;
    KeptAtStart(p, rpcTimeout, x, ds, ms);
    RunsOfTheDaemon(p, rpcTimeout, x, ds, ms, k);
    ClientsOf(p, ds[k], t, i, a, s, data);
  }

  lemma ClientsOf(p: Params, d: Daemon, t: Time, i: nat, a: Attempt, s: nat, data: string)
    requires DaemonModel.Inv(p, d)
    ensures |d.net.slots| == 100
    ensures CanHappen(d, Moment(t, Connects(i, a)))
            <==> d.alarm.running && i < d.net.listenMax && Fresh(d.net, a) && t >= d.now
    ensures CanHappen(d, Moment(t, Speaks(s, data)))
            <==> s < 100 && d.net.slots[s].sd != -1 && data != [] && t >= d.now
    ensures CanHappen(d, Moment(t, HangsUp(s)))
            <==> s < 100 && d.net.slots[s].sd != -1 && t >= d.now
  {
    hide Fresh, Distinct, Fds, Held, Replay, AI.Inv, AI.LogInv;
    if s < 100 {
      assert SlotInv(d.net.slots[s]);
    }
  }

  lemma KeptAtStart(p: Params, rpcTimeout: nat, x: Entry, ds: seq<Daemon>, ms: seq<Moment>)
    requires IsRunFrom(p, rpcTimeout, x, ds, ms)
    ensures x.examined <= |x.candidates| && ds[0].net.listenMax == |x.Kept()|
    ensures |ds| == |ms| + 1
  {
    hide Sockets, Changes, FreshSockets;
  }
}
