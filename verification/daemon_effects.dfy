/** What each event does to the daemon: readings, the second timer, and the texts that clients send. */
module DaemonEffects {
  import opened Options
  import opened AlarmModel
  import opened SessionModel
  import opened RpcModel
  import opened DaemonModel

  /**
    What a reading does. A detection counts; once more than `threshold` of them have come in a row
    they trigger, and the first script runs if monitoring is on and no alarm is open. Anybody's
    absence starts the count again and a failure leaves it.
   */
  lemma ReadingsByCount(p: Params, rpcTimeout: nat, d: Daemon, at: Time, r: Reading)
    requires Shaped(d.net) && d.alarm.count <= p.threshold
    ensures var a := d.alarm;
            var a' := Next(p, rpcTimeout, d, Moment(at, PollFires(r))).alarm;
            var triggers := r == Person && a.count == p.threshold;
            && a'.count == (if r == Person && !triggers then a.count + 1 else if r == Failed then a.count else 0)
            && a'.alerts == (if triggers then a.alerts + [at] else a.alerts)
            && a'.log == (if triggers && a.monitor && !a.processing then a.log + [Launch(at, First)] else a.log)
            && a'.processing == (a.processing || (triggers && a.monitor))
            && a'.status == (if triggers && a.monitor then 1 else a.status)
            && a'.monitor == a.monitor && a'.running == a.running
  {
  }

  /** What the second timer does: it runs the second script and closes the alarm. */
  lemma SecondTimerCloses(p: Params, rpcTimeout: nat, d: Daemon, at: Time)
    requires Shaped(d.net)
    ensures Next(p, rpcTimeout, d, Moment(at, SecondFires)).alarm
            == d.alarm.(now := at, secondAt := None, processing := false, status := 2,
                        log := d.alarm.log + [Launch(at, Second)])
  {
  }

  /** Whoever speaks is served by what the request starts with, and loses the slot. */
  lemma RequestsByText(p: Params, rpcTimeout: nat, d: Daemon, at: Time, k: nat, data: string)
    requires Shaped(d.net) && Listening(d.net, k)
    ensures var m := Moment(at, Speaks(k, data));
            var d' := Next(p, rpcTimeout, d, m);
            && Served(data, d.alarm, at, d'.alarm, Answer(d, m))
            && d'.net.slots[k].sd == -1 && d'.net.slots[k].event == None
  {
    hide Served, Obey, Reply, Decode, RequestLine;
    RequestServed(data, d.alarm, at);
  }

  /** Whoever hangs up, or is silent for too long, loses the slot, and the alarm does not notice. */
  lemma OthersAnswered(p: Params, rpcTimeout: nat, d: Daemon, at: Time, k: nat, input: Input)
    requires Shaped(d.net) && Listening(d.net, k)
    requires input == HangsUp(k) || input == Expires(k)
    ensures var m := Moment(at, input);
            var d' := Next(p, rpcTimeout, d, m);
            && Answer(d, m) == (if input.Expires? then Some("TIMEOUT\r\n") else None)
            && d'.alarm.(now := d.alarm.now) == d.alarm
            && d'.net.slots[k].sd == -1 && d'.net.slots[k].event == None
  {
  }
}
