/** The alert and the sensor objects: their callbacks update their fields in place. */
module Alarm {
  import opened Options
  import opened AlarmModel

  const ULONG_MAX: nat := 0xFFFF_FFFF_FFFF_FFFF

  /** An `unsigned long` counter wraps around. */
  function Increment(n: nat): nat {
    if n == ULONG_MAX then 0 else n + 1
  }

  /** An `int` compared with an `unsigned long` is converted first. */
  function ToUlong(n: int): int {
    if n >= 0 then n else n + ULONG_MAX + 1
  }

  /** For a threshold in range the converted comparison is the intended one, and nothing wraps. */
  lemma ComparisonFaithful(p: Params, count: nat)
    requires count <= p.threshold
    ensures Increment(count) == count + 1
    ensures Increment(count) > ToUlong(p.threshold) <==> count == p.threshold
    ensures 0 <= p.pollInterval < 1_000_000
  {
  }

  class Alert {
    const cancelWaitTime: int
    var secondAlertEvent: Option<Time>
    var alertProcessing: bool
    var alertStatus: int
    /** The launches of the two scripts so far. */
    ghost var log: seq<Launch>

    constructor (cancelWaitTime: int)
      ensures this.cancelWaitTime == cancelWaitTime
      ensures secondAlertEvent == None && !alertProcessing && alertStatus == NO_ALERT && log == []
    {
      this.cancelWaitTime := cancelWaitTime;
      secondAlertEvent := None;
      alertProcessing := false;
      alertStatus := NO_ALERT;
      log := [];
    }

    /** Starts the first alarm, unless one is open already. */
    method StartFirst(now: Time)
      requires cancelWaitTime >= 0
      modifies this
      ensures alertStatus == FIRST_ALERT && alertProcessing
      ensures old(alertProcessing) ==> log == old(log) && secondAlertEvent == old(secondAlertEvent)
      ensures !old(alertProcessing) ==>
                && log == old(log) + [Launch(now, First)]
                && secondAlertEvent == Some(now + cancelWaitTime * 1_000_000)
    {
      alertStatus := FIRST_ALERT;
      if alertProcessing {
        return;
      }
      alertProcessing := true;
      log := log + [Launch(now, First)];
      secondAlertEvent := Some(now + cancelWaitTime * 1_000_000);
    }

    /** The second timer fires; being one-shot, it is no longer registered. */
    method StartSecond(now: Time)
      modifies this
      ensures alertStatus == SECOND_ALERT && !alertProcessing && secondAlertEvent == None
      ensures log == old(log) + [Launch(now, Second)]
    {
      secondAlertEvent := None;
      alertStatus := SECOND_ALERT;
      log := log + [Launch(now, Second)];
      alertProcessing := false;
    }

    method Cancel()
      modifies this
      ensures alertStatus == NO_ALERT && !alertProcessing && secondAlertEvent == None && log == old(log)
    {
      secondAlertEvent := None;
      alertProcessing := false;
      alertStatus := NO_ALERT;
    }

    method ClearStatus()
      modifies this`alertStatus
      ensures alertStatus == NO_ALERT
    {
      alertStatus := NO_ALERT;
    }

    method GetStatus() returns (status: int)
      ensures status == alertStatus
    {
      status := alertStatus;
    }
  }

  class Sensor {
    const alert: Alert
    const pollInterval: int
    const alertThreshold: int
    var pollEvent: Option<Time>
    var detectCount: nat
    var executeAlert: bool
    /** The times at which "alert!!" was printed. */
    ghost var alerts: seq<Time>

    ghost predicate Valid()
      reads this
    {
      && Settings(alertThreshold, pollInterval, alert.cancelWaitTime).InRange()
      && detectCount <= alertThreshold
    }

    function Params(): Params
      requires Settings(alertThreshold, pollInterval, alert.cancelWaitTime).InRange()
    {
      Settings(alertThreshold, pollInterval, alert.cancelWaitTime)
    }

    /** The alarm machine as these two objects hold it. */
    ghost function View(now: Time, running: bool): State
      reads this, alert
    {
      State(now, running, pollEvent, alert.secondAlertEvent, detectCount, executeAlert,
            alert.alertProcessing, alert.alertStatus, alerts, alert.log)
    }

    constructor (alert: Alert, pollInterval: int, alertThreshold: int)
      requires Settings(alertThreshold, pollInterval, alert.cancelWaitTime).InRange()
      ensures Valid() && this.alert == alert
      ensures this.pollInterval == pollInterval && this.alertThreshold == alertThreshold
      ensures pollEvent == None && detectCount == 0 && executeAlert && alerts == []
    {
      this.alert := alert;
      this.pollInterval := pollInterval;
      this.alertThreshold := alertThreshold;
      pollEvent := None;
      detectCount := 0;
      executeAlert := true;
      alerts := [];
    }

    /** Registers the first poll, two seconds ahead. */
    method Start(now: Time)
      modifies this`pollEvent
      ensures pollEvent == Some(now + 2_000_000)
    {
      pollEvent := Some(now + FIRST_POLL_DELAY);
    }

    /** The poll timer fires, the sensor is read, and the timer is registered again. */
    method Polling(now: Time, reading: Reading, ghost running: bool)
      requires Valid()
      modifies this, alert
      ensures Valid()
      ensures View(now, running) == Step(Params(), old(View(now, running)), Event(now, Poll(reading)))
    {
      pollEvent := None;
      if reading != Failed {
        if reading == Person {
          detectCount := Increment(detectCount);
          if detectCount > ToUlong(alertThreshold) {
            alerts := alerts + [now];
            if executeAlert {
              alert.StartFirst(now);
            }
            detectCount := 0;
          }
        } else {
          detectCount := 0;
        }
      }
      pollEvent := Some(now + pollInterval);
    }

    /** Unregisters the poll timer. */
    method Finish()
      modifies this`pollEvent
      ensures pollEvent == None
    {
      pollEvent := None;
    }

    method MonitorStart()
      modifies this`executeAlert
      ensures executeAlert
    {
      executeAlert := true;
    }

    method MonitorStop()
      modifies this`executeAlert
      ensures !executeAlert
    {
      executeAlert := false;
    }

    method GetMonitorStatus() returns (status: bool)
      ensures status == executeAlert
    {
      status := executeAlert;
    }
  }
}
