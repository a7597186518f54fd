/** The RPC object: reads one line from a client, acts on it, answers, and releases the slot. */
module Rpc {
  import opened Options
  import opened CStrings
  import opened Stdio
  import opened AlarmModel
  import opened RpcModel
  import opened Alarm
  import SessionModel
  import opened TcpServer

  class Rpc {
    const alert: Alert
    const sensor: Sensor
    const server: TcpServer
    const rpcTimeout: int

    ghost predicate Valid()
      reads this, sensor, server
    {
      sensor.Valid() && sensor.alert == alert && server.Valid()
    }

    constructor (alert: Alert, sensor: Sensor, server: TcpServer, rpcTimeout: int)
      ensures this.alert == alert && this.sensor == sensor
      ensures this.server == server && this.rpcTimeout == rpcTimeout
    {
      this.alert := alert;
      this.sensor := sensor;
      this.server := server;
      this.rpcTimeout := rpcTimeout;
    }

    /** Acts on a line and chooses the reply; `None` where the daemon aborts. */
    method Execute(line: string, ghost now: Time, ghost running: bool) returns (reply: Option<string>)
      requires Valid()
      modifies alert, sensor
      ensures Valid()
      ensures sensor.View(now, running) == Obey(old(sensor.View(now, running)), Decode(line))
      ensures reply == Reply(old(sensor.View(now, running)), Decode(line))
      ensures Served(line, old(sensor.View(now, running)), now, sensor.View(now, running), reply)
    {
      LineServed(line, sensor.View(now, running), now);
      hide TextOf, Served;
      if StartsWith(line, TextOf(StopMonitor)) {
        alert.Cancel();
        sensor.MonitorStop();
        reply := Some("OK\r\n");
      } else if StartsWith(line, TextOf(StartMonitor)) {
        sensor.MonitorStart();
        reply := Some("OK\r\n");
      } else if StartsWith(line, TextOf(GetMonitorStatus)) {
        var status := sensor.GetMonitorStatus();
        reply := if status then Some("RUNNING\r\n") else Some("STOPPING\r\n");
      } else if StartsWith(line, TextOf(CancelAlert)) {
        alert.Cancel();
        reply := Some("OK\r\n");
      } else if StartsWith(line, TextOf(GetAlertStatus)) {
        var status := alert.GetStatus();
        if status == NO_ALERT {
          reply := Some("GOOD\r\n");
        } else if status == FIRST_ALERT {
          reply := Some("FIRST ALERT\r\n");
        } else if status == SECOND_ALERT {
          reply := Some("SECOND ALERT\r\n");
        } else {
          reply := None;
        }
      } else if StartsWith(line, TextOf(ClearAlertStatus)) {
        alert.ClearStatus();
        reply := Some("OK\r\n");
      } else {
        reply := Some("UNKNOWN COMMAND\r\n");
      }
    }

    /** Reads a line from a client into a 128-byte buffer and strips it there. */
    static method ReadRequest(data: string) returns (got: bool, line: string)
      ensures got <==> data != []
      ensures got ==> line == RequestLine(data)
    {
      RequestLineIs(data);
      hide *;
      var fp := new InputFile(data);
      var buffer := new char[128];
      got := fp.Fgets(buffer, buffer.Length);
      if !got {
        return false, "";
      }
      RStripInPlace(buffer, 0, STRIPPED);
      line := CStr(buffer[..], 0);
    }

    /**
      A client in slot `k` can be read. At the end of its input (`data` empty) the slot is released
      without a reply; otherwise one line is read, acted on and answered.
     */
    method AcceptRead(k: nat, data: string, ghost now: Time, ghost running: bool)
      returns (reply: Option<string>)
      requires Valid() && k < SessionModel.SLOTS
      modifies alert, sensor, server.acceptInfo, server`journal
      ensures Valid()
      ensures server.View() == SessionModel.Clear(old(server.View()), k)
      ensures data == [] ==> reply == None && sensor.View(now, running) == old(sensor.View(now, running))
      ensures data != [] ==>
                var c := Decode(RequestLine(data));
                && sensor.View(now, running) == Obey(old(sensor.View(now, running)), c)
                && reply == Reply(old(sensor.View(now, running)), c)
      ensures data != [] ==>
                Served(data, old(sensor.View(now, running)), now, sensor.View(now, running), reply)
    {
      RequestServed(data, sensor.View(now, running), now);
      hide RequestLine, Decode, Obey, Reply, Served;
      var got, line := ReadRequest(data);
      if !got {
        server.AcceptClear(k);
        return None;
      }
      reply := Execute(line, now, running);
      server.AcceptClear(k);
    }

    /** A client in slot `k` has been silent for too long. */
    method AcceptTimeout(k: nat) returns (reply: Option<string>)
      requires Valid() && k < SessionModel.SLOTS
      modifies server.acceptInfo, server`journal
      ensures Valid()
      ensures server.View() == SessionModel.Clear(old(server.View()), k)
      ensures reply == Some("TIMEOUT\r\n")
    {
      reply := Some("TIMEOUT\r\n");
      server.AcceptClear(k);
    }

    method Finish()
      requires Valid()
      modifies server.Repr()
      ensures Valid() && server.View() == SessionModel.Stop(old(server.View()))
    {
      server.Stop();
    }
  }
}
