/** The commands of the RPC protocol and how a line from a client is understood. */
module RpcModel {
  import opened Options
  import opened CStrings
  import opened LineReader
  import opened AlarmModel

  /** The room for characters in the 128-byte request buffer. */
  const REQUEST_ROOM: nat := 127

  const STRIPPED: string := "\r\n \t"

  predicate StartsWith(line: string, text: string) {
    text <= line
  }

  function TextOf(c: Command): (t: string)
  {
    match c
    case StopMonitor => "STOP_MONITOR"
    case StartMonitor => "START_MONITOR"
    case GetMonitorStatus => "GET_MONITOR_STATUS"
    case CancelAlert => "CANCEL_ALERT"
    case GetAlertStatus => "GET_ALERT_STATUS"
    case ClearAlertStatus => "CLEAR_ALERT_STATUS"
    case UnknownCommand => ""
  }

  /** The commands are tried in this order. */
  function Decode(line: string): Command {
    if StartsWith(line, TextOf(StopMonitor)) then StopMonitor
    else if StartsWith(line, TextOf(StartMonitor)) then StartMonitor
    else if StartsWith(line, TextOf(GetMonitorStatus)) then GetMonitorStatus
    else if StartsWith(line, TextOf(CancelAlert)) then CancelAlert
    else if StartsWith(line, TextOf(GetAlertStatus)) then GetAlertStatus
    else if StartsWith(line, TextOf(ClearAlertStatus)) then ClearAlertStatus
    else UnknownCommand
  }

  /** The commands differ at one of their first five characters. */
  lemma TextsDiffer(c: Command, d: Command)
    requires c != d && !c.UnknownCommand? && !d.UnknownCommand?
    ensures |TextOf(c)| > 4 && |TextOf(d)| > 4
    ensures var i := if {c, d} == {StopMonitor, StartMonitor} then 2
                     else if {c, d} == {GetMonitorStatus, GetAlertStatus} then 4
                     else if {c, d} == {CancelAlert, ClearAlertStatus} then 1
                     else 0;
            TextOf(c)[i] != TextOf(d)[i]
  {
  }

  /** At most one command matches a line, so the order in which they are tried does not matter. */
  lemma OneCommand(line: string, c: Command, d: Command)
    requires !c.UnknownCommand? && !d.UnknownCommand?
    requires StartsWith(line, TextOf(c)) && StartsWith(line, TextOf(d))
    ensures c == d
  {
    if c != d {
      TextsDiffer(c, d);
    }
  }

  /** A line is understood as a command exactly when it starts with the text of that command. */
  lemma DecodeExactly(line: string, c: Command)
    requires !c.UnknownCommand?
    ensures Decode(line) == c <==> StartsWith(line, TextOf(c))
  {
    hide TextOf, StartsWith;
    if StartsWith(line, TextOf(c)) && Decode(line) != c {
      OneCommand(line, c, Decode(line));
    }
  }

  /** The line that a request denotes: one piece of it, up to a NUL, without blanks at its end. */
  function RequestLine(data: string): string {
    RStrip(Cut(data[..PieceLength(data, REQUEST_ROOM)]), STRIPPED)
  }

  lemma RequestLineIs(data: string)
    ensures RequestLine(data) == RStrip(Cut(data[..PieceLength(data, 127)]), STRIPPED)
    ensures STRIPPED == "\r\n \t"
  {
  }

  predicate Plain(text: string) {
    forall i :: 0 <= i < |text| ==> 'A' <= text[i] <= 'Z' || text[i] == '_'
  }

  lemma PlainInPiece(text: string, data: string)
    requires Plain(text) && text <= data && |text| < REQUEST_ROOM
    ensures text <= data[..PieceLength(data, REQUEST_ROOM)]
  {
    hide PieceLength;
    PieceLengthIs(data, REQUEST_ROOM);
    assert forall i :: 0 <= i < |text| ==> data[i] == text[i];
  }

  lemma PlainInCut(text: string, piece: string)
    requires Plain(text) && text <= piece
    ensures text <= Cut(piece)
  {
    hide Cut;
    assert forall i :: 0 <= i < |text| ==> piece[i] == text[i];
  }

  lemma PlainStripped(text: string, line: string)
    requires text != [] && Plain(text) && text <= line
    ensures text <= RStrip(line, STRIPPED)
  {
    var r := RStrip(line, STRIPPED);
    RStripMaximal(line, STRIPPED, r);
    hide RStrip;
    forall k | |r| <= k < |line|
      ensures line[k] in STRIPPED
    {
      assert line[k] == line[|r|..][k - |r|];
    }
    assert line[|text| - 1] == text[|text| - 1];
  }

  /** A command sent with its line end is understood, and so is one followed by anything else. */
  lemma CommandUnderstood(c: Command, data: string)
    requires !c.UnknownCommand? && TextOf(c) <= data
    ensures Decode(RequestLine(data)) == c
  {
    hide TextOf, Decode, PieceLength, Cut, RStrip, Find, Plain;
    TextPlain(c);
    var piece := data[..PieceLength(data, REQUEST_ROOM)];
    PlainInPiece(TextOf(c), data);
    PlainInCut(TextOf(c), piece);
    PlainStripped(TextOf(c), Cut(piece));
    DecodeExactly(RequestLine(data), c);
  }

  lemma TextPlain(c: Command)
    requires !c.UnknownCommand?
    ensures 0 < |TextOf(c)| < 20
    ensures Plain(TextOf(c))
  {
  }

  // ---- What each text does ----

  /** A request means a command exactly if it starts with its text. */
  lemma Understood(data: string, c: Command)
    requires !c.UnknownCommand?
    ensures Decode(RequestLine(data)) == c <==> TextOf(c) <= data
  {
    assert RequestLine(data) <= data;
    hide Decode, RequestLine, TextOf;
    DecodeExactly(RequestLine(data), c);
    if TextOf(c) <= data {
      CommandUnderstood(c, data);
    }
  }

  lemma Spelling()
    ensures TextOf(StopMonitor) == "STOP_MONITOR"
    ensures TextOf(StartMonitor) == "START_MONITOR"
    ensures TextOf(GetMonitorStatus) == "GET_MONITOR_STATUS"
    ensures TextOf(CancelAlert) == "CANCEL_ALERT"
    ensures TextOf(GetAlertStatus) == "GET_ALERT_STATUS"
    ensures TextOf(ClearAlertStatus) == "CLEAR_ALERT_STATUS"
  {
  }

  /**
    What a request does to the alarm, and its answer, by the text that it starts with: a
    stop and a cancel call the alarm off, a clear only clears the display, and a start, a query and
    anything else leave the alarm as it is.
   */
  predicate Served(data: string, a: State, at: Time, a': State, answer: Option<string>) {
    var same := a.(now := at);
    && ("STOP_MONITOR" <= data ==>
          && a' == same.(monitor := false, secondAt := None, processing := false, status := 0)
          && answer == Some("OK\r\n"))
    && ("START_MONITOR" <= data ==>
          a' == same.(monitor := true) && answer == Some("OK\r\n"))
    && ("GET_MONITOR_STATUS" <= data ==>
          a' == same && answer == Some(if a.monitor then "RUNNING\r\n" else "STOPPING\r\n"))
    && ("CANCEL_ALERT" <= data ==>
          && a' == same.(secondAt := None, processing := false, status := 0)
          && answer == Some("OK\r\n"))
    && ("GET_ALERT_STATUS" <= data ==>
          && a' == same
          && (a.status == 0 ==> answer == Some("GOOD\r\n"))
          && (a.status == 1 ==> answer == Some("FIRST ALERT\r\n"))
          && (a.status == 2 ==> answer == Some("SECOND ALERT\r\n")))
    && ("CLEAR_ALERT_STATUS" <= data ==>
          a' == same.(status := 0) && answer == Some("OK\r\n"))
    && (!("STOP_MONITOR" <= data) && !("START_MONITOR" <= data) && !("GET_MONITOR_STATUS" <= data)
        && !("CANCEL_ALERT" <= data) && !("GET_ALERT_STATUS" <= data) && !("CLEAR_ALERT_STATUS" <= data) ==>
          a' == same && answer == Some("UNKNOWN COMMAND\r\n"))
  }

  /** A line is served by what it starts with. */
  lemma LineServed(line: string, a: State, at: Time)
    ensures Served(line, a, at, Obey(a.(now := at), Decode(line)), Reply(a, Decode(line)))
  {
    hide Decode, TextOf;
    Spelling();
    DecodeExactly(line, StopMonitor);
    DecodeExactly(line, StartMonitor);
    DecodeExactly(line, GetMonitorStatus);
    DecodeExactly(line, CancelAlert);
    DecodeExactly(line, GetAlertStatus);
    DecodeExactly(line, ClearAlertStatus);
  }

  /** So is a request, whatever follows: the buffer and the stripping do not change what it means. */
  lemma RequestServed(data: string, a: State, at: Time)
    ensures var c := Decode(RequestLine(data));
            Served(data, a, at, Obey(a.(now := at), c), Reply(a, c))
  {
    hide Decode, RequestLine, TextOf;
    Spelling();
    Understood(data, StopMonitor);
    Understood(data, StartMonitor);
    Understood(data, GetMonitorStatus);
    Understood(data, CancelAlert);
    Understood(data, GetAlertStatus);
    Understood(data, ClearAlertStatus);
  }
}
