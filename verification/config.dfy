/** The configuration object: its fields, the update of one setting, the parser and the printer. */
module Config {
  import opened CStrings
  import opened Numerals
  import opened ConfigModel
  import opened LineReader
  import opened Stdio
  import opened ConfigPrint
  import ConfigKeys

  const ERANGE: int := 34
  const EINVAL: int := 22

  class Config {
    var firstAlertScript: string
    var secondAlertScript: string
    var cancelWaitTime: int
    var pollInterval: int
    var alertThreshold: int
    var rpcPort: string
    var rpcTimeout: int
    var pidFilePath: string

    function View(): Values
      reads this
    {
      Values(firstAlertScript, secondAlertScript, rpcPort, pidFilePath,
             cancelWaitTime, pollInterval, alertThreshold, rpcTimeout)
    }

    constructor (v: Values)
      ensures View() == v
    {
      firstAlertScript, secondAlertScript := v.firstAlertScript, v.secondAlertScript;
      cancelWaitTime, pollInterval := v.cancelWaitTime, v.pollInterval;
      alertThreshold, rpcTimeout := v.alertThreshold, v.rpcTimeout;
      rpcPort, pidFilePath := v.rpcPort, v.pidFilePath;
    }

    /**
      Converts the text of a numeric setting and checks it. `errno` holds anything before the
      conversion and is not cleared; a conversion without digits may or may not set it.
     */
    static method ReadInt(text: string, min: int, max: int) returns (error: bool, n: int)
      requires 0 < min && max < LONG_MAX
      ensures !error <==> Strtol(text).end == |text| && min <= Strtol(text).value <= max
      ensures !error ==> n == Strtol(text).value
    {
      var errno: int := *;
      var r := Strtol(text);
      if r.overflow {
        errno := ERANGE;
      } else if r.end == 0 {
        if * {
          errno := EINVAL;
        }
      }
      n := r.value;
      if r.end != |text| {
        return true, n;
      }
      if (n == LONG_MIN || n == LONG_MAX) && errno == ERANGE {
        return true, n;
      }
      if n == 0 && errno == EINVAL {
        return true, n;
      }
      if n < min || n > max {
        return true, n;
      }
      return false, n;
    }

    /** The update function of one entry of the table. */
    method UpdateField(f: Field, text: string) returns (error: bool)
      modifies this
      ensures View() == Assign(old(View()), f, text)
      ensures error <==> Interpret(f, text).None?
    {
      if IsText(f) {
        error := false;
        if f.FirstAlertScript? {
          firstAlertScript := text;
        } else if f.SecondAlertScript? {
          secondAlertScript := text;
        } else if f.RpcPort? {
          rpcPort := text;
        } else {
          pidFilePath := text;
        }
      } else {
        var n;
        error, n := ReadInt(text, Low(f), High(f));
        if error {
          return;
        }
        if f.CancelWaitTime? {
          cancelWaitTime := n;
        } else if f.PollInterval? {
          pollInterval := n;
        } else if f.AlertThreshold? {
          alertThreshold := n;
        } else {
          rpcTimeout := n;
        }
      }
    }

    /** Tries every entry of the table; the results of the update functions are ignored. */
    method Update(kv: KeyValue)
      modifies this
      ensures View() == ConfigModel.Update(old(View()), kv)
      ensures ConfigKeys.Sets(old(View()), kv.key, kv.value, View())
    {
      ghost var c := View();
      ConfigKeys.KeySets(c, kv.key, kv.value);
      hide ConfigKeys.Sets;
      for i := 0 to |KEY_MAP|
        invariant UpdateInOrder(View(), kv, KEY_MAP[i..]) == ConfigModel.Update(c, kv)
      {
        assert KEY_MAP[i..][1..] == KEY_MAP[i + 1..];
        if Matches(KEY_MAP[i], kv.key) {
          var ignored := UpdateField(KEY_MAP[i], kv.value);
        }
      }
    }

    /** Handles one line in the buffer; false if it can be neither skipped nor split. */
    method ParseBuffer(line: array<char>, ghost piece: string) returns (ok: bool)
      requires Terminated(line[..], 0) && CStr(line[..], 0) == Cut(piece)
      modifies this, line
      ensures Parsed(ok, View()) == ParseLine(old(View()), piece)
    {
      hide Split, Cut, RStrip, UpdateInOrder;
      RStripInPlace(line, 0, "\r\n");
      ghost var text := CStr(line[..], 0);
      CStrAt(line[..], 0);
      if line[0] == NUL || line[0] == '#' {
        return true;
      }
      var split, key, value := SplitInPlace(line, 0);
      if !split {
        return false;
      }
      Update(KeyValue(CStr(line[..], key), CStr(line[..], value)));
      return true;
    }

    /** Reads a file through a 256-byte buffer, up to its end or the first line that fails. */
    method Parse(fp: InputFile) returns (ok: bool)
      requires fp.Valid()
      modifies this, fp
      ensures fp.Valid()
      ensures Parsed(ok, View()) == ConfigModel.Parse(old(View()), Pieces(old(fp.Rest()), ROOM))
    {
      hide ParseLine, View, CStr, Cut, PieceLength;
      var line := new char[256];
      ghost var result := ConfigModel.Parse(View(), Pieces(fp.Rest(), ROOM));
      while true
        invariant fp.Valid() && line.Length == 256
        invariant ConfigModel.Parse(View(), Pieces(fp.Rest(), ROOM)) == result
        decreases |fp.Rest()|
      {
        ghost var rest := fp.Rest();
        var got := fp.Fgets(line, line.Length);
        if !got {
          return true;
        }
        ok := ParseBuffer(line, rest[..PieceLength(rest, ROOM)]);
        if !ok {
          return false;
        }
      }
    }

    /** Adds the line of entry `i` of the table to what has been printed so far. */
    static method Put(out: string, ghost c: Values, ghost i: nat, line: string) returns (out': string)
      requires i < |KEY_MAP|
      requires out == Joined(LinesOf(c, KEY_MAP[..i])) && line == Line(c, KEY_MAP[i])
      ensures out' == Joined(LinesOf(c, KEY_MAP[..i + 1]))
    {
      out' := out + line + "\n";
      JoinedAppend(LinesOf(c, KEY_MAP[..i]), line);
      LinesOfNext(c, KEY_MAP, i);
      hide Joined, Line, LinesOf;
    }

    method PrintTexts() returns (out: string)
      ensures out == Joined(LinesOf(View(), KEY_MAP[..4]))
    {
      ghost var c := View();
      out := "";
      NothingPrinted(c);
      TextLines(c);
      hide Joined, LinesOf, Line;
      out := Put(out, c, 0, "first_alert_script" + " = " + firstAlertScript);
      out := Put(out, c, 1, "second_alert_script" + " = " + secondAlertScript);
      out := Put(out, c, 2, "rpc_port" + " = " + rpcPort);
      out := Put(out, c, 3, "pid_file_path" + " = " + pidFilePath);
    }

    /** Prints the eight settings, one to a line. */
    method Print() returns (out: string)
      ensures out == Printed(View())
    {
      ghost var c := View();
      NumberLines(c);
      hide Joined, Decimal, LinesOf, Line;
      out := PrintTexts();
      out := Put(out, c, 4, "cancel_wait_time" + " = " + Decimal(cancelWaitTime));
      out := Put(out, c, 5, "poll_interval" + " = " + Decimal(pollInterval));
      out := Put(out, c, 6, "alert_threshold" + " = " + Decimal(alertThreshold));
      out := Put(out, c, 7, "rpc_timeout" + " = " + Decimal(rpcTimeout));
      assert KEY_MAP[..8] == KEY_MAP;
    }
  }

  lemma NothingPrinted(c: Values)
    ensures Joined(LinesOf(c, KEY_MAP[..0])) == ""
  {
    assert LinesOf(c, KEY_MAP[..0]) == [];
  }

  lemma TextLines(c: Values)
    ensures Line(c, KEY_MAP[0]) == "first_alert_script" + " = " + c.firstAlertScript
    ensures Line(c, KEY_MAP[1]) == "second_alert_script" + " = " + c.secondAlertScript
    ensures Line(c, KEY_MAP[2]) == "rpc_port" + " = " + c.rpcPort
    ensures Line(c, KEY_MAP[3]) == "pid_file_path" + " = " + c.pidFilePath
  {
  }

  lemma NumberLines(c: Values)
    ensures Line(c, KEY_MAP[4]) == "cancel_wait_time" + " = " + Decimal(c.cancelWaitTime)
    ensures Line(c, KEY_MAP[5]) == "poll_interval" + " = " + Decimal(c.pollInterval)
    ensures Line(c, KEY_MAP[6]) == "alert_threshold" + " = " + Decimal(c.alertThreshold)
    ensures Line(c, KEY_MAP[7]) == "rpc_timeout" + " = " + Decimal(c.rpcTimeout)
  {
    hide Decimal;
  }
}
