/**
  The configuration as values: the table of keys, what a line assigns, and what a whole file means.
 */
module ConfigModel {
  import opened Options
  import opened CStrings
  import opened Numerals

  datatype Field =
    | FirstAlertScript
    | SecondAlertScript
    | RpcPort
    | PidFilePath
    | CancelWaitTime
    | PollInterval
    | AlertThreshold
    | RpcTimeout

  datatype Values = Values(
    firstAlertScript: string,
    secondAlertScript: string,
    rpcPort: string,
    pidFilePath: string,
    cancelWaitTime: int,
    pollInterval: int,
    alertThreshold: int,
    rpcTimeout: int)

  datatype Value = Text(text: string) | Number(number: int)

  const DEFAULTS: Values := Values(
    "/var/ids/first_alert_script.sh", "/var/ids/second_alert_script.sh",
    "18000", "/var/run/ids.pid", 60, 5000, 12, 60)

  /** The table in the order in which it is searched. */
  const KEY_MAP: seq<Field> := [
    FirstAlertScript, SecondAlertScript, RpcPort, PidFilePath,
    CancelWaitTime, PollInterval, AlertThreshold, RpcTimeout]

  function KeyOf(f: Field): (k: string)
    ensures k != []
  {
    match f
    case FirstAlertScript => "first_alert_script"
    case SecondAlertScript => "second_alert_script"
    case RpcPort => "rpc_port"
    case PidFilePath => "pid_file_path"
    case CancelWaitTime => "cancel_wait_time"
    case PollInterval => "poll_interval"
    case AlertThreshold => "alert_threshold"
    case RpcTimeout => "rpc_timeout"
  }

  predicate IsText(f: Field) {
    f.FirstAlertScript? || f.SecondAlertScript? || f.RpcPort? || f.PidFilePath?
  }

  /** The range of a numeric setting. */
  function Low(f: Field): (n: int)
    ensures 0 < n
  {
    if f.PollInterval? then 1000 else if f.AlertThreshold? then 1 else 5
  }

  function High(f: Field): (n: int)
    ensures n <= 255000
  {
    match f
    case CancelWaitTime => 86400
    case PollInterval => 255000
    case AlertThreshold => 65535
    case _ => 3600
  }

  function Get(c: Values, f: Field): (x: Value)
    ensures x.Text? <==> IsText(f)
  {
    match f
    case FirstAlertScript => Text(c.firstAlertScript)
    case SecondAlertScript => Text(c.secondAlertScript)
    case RpcPort => Text(c.rpcPort)
    case PidFilePath => Text(c.pidFilePath)
    case CancelWaitTime => Number(c.cancelWaitTime)
    case PollInterval => Number(c.pollInterval)
    case AlertThreshold => Number(c.alertThreshold)
    case RpcTimeout => Number(c.rpcTimeout)
  }

  function Set(c: Values, f: Field, x: Value): (c': Values)
    requires x.Text? <==> IsText(f)
    ensures forall g :: Get(c', g) == if g == f then x else Get(c, g)
  {
    match f
    case FirstAlertScript => c.(firstAlertScript := x.text)
    case SecondAlertScript => c.(secondAlertScript := x.text)
    case RpcPort => c.(rpcPort := x.text)
    case PidFilePath => c.(pidFilePath := x.text)
    case CancelWaitTime => c.(cancelWaitTime := x.number)
    case PollInterval => c.(pollInterval := x.number)
    case AlertThreshold => c.(alertThreshold := x.number)
    case RpcTimeout => c.(rpcTimeout := x.number)
  }

  /** A configuration is determined by its fields. */
  lemma Extensional(c: Values, d: Values)
    requires forall f :: Get(c, f) == Get(d, f)
    ensures c == d
  {
    assert Get(c, FirstAlertScript) == Get(d, FirstAlertScript);
    assert Get(c, SecondAlertScript) == Get(d, SecondAlertScript);
    assert Get(c, RpcPort) == Get(d, RpcPort);
    assert Get(c, PidFilePath) == Get(d, PidFilePath);
    assert Get(c, CancelWaitTime) == Get(d, CancelWaitTime);
    assert Get(c, PollInterval) == Get(d, PollInterval);
    assert Get(c, AlertThreshold) == Get(d, AlertThreshold);
    assert Get(c, RpcTimeout) == Get(d, RpcTimeout);
  }

  // ---- One assignment ----

  function Lower(c: char): char {
    if 'A' <= c <= 'Z' then c - 'A' + 'a' else c
  }

  /** The first `n` characters agree but for case (`strncasecmp` answers 0), `n` being `|name|`. */
  predicate HasPrefix(name: string, key: string) {
    |name| <= |key| && forall i :: 0 <= i < |name| ==> Lower(name[i]) == Lower(key[i])
  }

  predicate Matches(f: Field, key: string) {
    HasPrefix(KeyOf(f), key)
  }

  /** The value a text stands for, if the field takes it. */
  function Interpret(f: Field, text: string): (x: Option<Value>)
    ensures x.Some? ==> (x.value.Text? <==> IsText(f))
  {
    if IsText(f) then Some(Text(text))
    else
      var n := Strtol(text);
      if n.end == |text| && Low(f) <= n.value <= High(f) then Some(Number(n.value)) else None
  }

  /** A numeric field takes exactly the texts that write a number in its range. */
  lemma TakesNumbers(f: Field, text: string, v: int)
    requires !IsText(f)
    ensures Interpret(f, text) == Some(Number(v)) <==> Low(f) <= v <= High(f) && IntegerText(text, v)
  {
    if Low(f) <= v <= High(f) {
      ReadExactly(text, v);
    }
  }

  /** The keys differ at one of their first five characters. */
  lemma KeysDiffer(f: Field, g: Field)
    requires f != g
    ensures |KeyOf(f)| > 4 && |KeyOf(g)| > 4
    ensures var i := if {f, g} == {RpcPort, RpcTimeout} then 4
                     else if {f, g} == {PidFilePath, PollInterval} then 1
                     else 0;
            Lower(KeyOf(f)[i]) != Lower(KeyOf(g)[i])
  {
  }

  /** At most one entry of the table matches a key. */
  lemma OneMatch(f: Field, g: Field, key: string)
    requires Matches(f, key) && Matches(g, key)
    ensures f == g
  {
    if f != g {
      KeysDiffer(f, g);
    }
  }

  function Assign(c: Values, f: Field, text: string): Values {
    match Interpret(f, text)
    case None => c
    case Some(x) => Set(c, f, x)
  }

  /** Every entry of the table that matches is applied; whether its text was taken is ignored. */
  function UpdateInOrder(c: Values, kv: KeyValue, table: seq<Field>): Values
    decreases |table|
  {
    if table == [] then c
    else
      UpdateInOrder(
        if Matches(table[0], kv.key) then Assign(c, table[0], kv.value) else c, kv, table[1..])
  }

  function Update(c: Values, kv: KeyValue): Values {
    UpdateInOrder(c, kv, KEY_MAP)
  }

  /** What a pair assigns to a field, if anything. */
  function PairAssigns(kv: KeyValue, f: Field): (x: Option<Value>)
    ensures x.Some? ==> (x.value.Text? <==> IsText(f))
  {
    if Matches(f, kv.key) then Interpret(f, kv.value) else None
  }

  function Or(x: Option<Value>, y: Value): Value {
    if x.Some? then x.value else y
  }

  lemma {:induction false} UpdateEffect(c: Values, kv: KeyValue, table: seq<Field>, f: Field)
    ensures Get(UpdateInOrder(c, kv, table), f)
            == if f in table then Or(PairAssigns(kv, f), Get(c, f)) else Get(c, f)
    decreases |table|
  {
    if table != [] {
      hide Interpret, Matches, Get, Set;
      var g := table[0];
      UpdateEffect(if Matches(g, kv.key) then Assign(c, g, kv.value) else c, kv, table[1..], f);
    }
  }

  /** The order of the table does not matter, nor do repeated entries, as long as it is complete. */
  lemma OrderIndependent(c: Values, kv: KeyValue, table: seq<Field>)
    requires forall f :: f in table
    ensures UpdateInOrder(c, kv, table) == Update(c, kv)
  {
    forall f
      ensures Get(UpdateInOrder(c, kv, table), f) == Get(Update(c, kv), f)
    {
      UpdateEffect(c, kv, table, f);
      UpdateEffect(c, kv, KEY_MAP, f);
      Complete(f);
    }
    Extensional(UpdateInOrder(c, kv, table), Update(c, kv));
  }

  lemma Complete(f: Field)
    ensures f in KEY_MAP
  {
    assert KEY_MAP[0] == FirstAlertScript && KEY_MAP[1] == SecondAlertScript;
    assert KEY_MAP[2] == RpcPort && KEY_MAP[3] == PidFilePath;
    assert KEY_MAP[4] == CancelWaitTime && KEY_MAP[5] == PollInterval;
    assert KEY_MAP[6] == AlertThreshold && KEY_MAP[7] == RpcTimeout;
  }

  lemma UpdateGets(c: Values, kv: KeyValue, f: Field)
    ensures Get(Update(c, kv), f) == Or(PairAssigns(kv, f), Get(c, f))
  {
    Complete(f);
    UpdateEffect(c, kv, KEY_MAP, f);
  }

  // ---- A file ----

  /** The line that a piece of input denotes: up to a NUL, without the line end. */
  function LineOf(piece: string): string {
    RStrip(Cut(piece), "\r\n")
  }

  predicate Skipped(line: string) {
    line == [] || line[0] == '#'
  }

  /** A line that can be read: empty, a comment, or holding an '='. */
  predicate Readable(piece: string) {
    Skipped(LineOf(piece)) || '=' in LineOf(piece)
  }

  datatype Parsed = Parsed(ok: bool, values: Values)

  function ParseLine(c: Values, piece: string): Parsed {
    var line := LineOf(piece);
    if Skipped(line) then Parsed(true, c)
    else
      match Split(line)
      case None => Parsed(false, c)
      case Some(kv) => Parsed(true, Update(c, kv))
  }

  /** The pieces are read in order up to the first that cannot be. */
  function Parse(c: Values, pieces: seq<string>): Parsed
    decreases |pieces|
  {
    if pieces == [] then Parsed(true, c)
    else
      var p := ParseLine(c, pieces[0]);
      if p.ok then Parse(p.values, pieces[1..]) else p
  }

  /** What a piece assigns to a field, if anything. */
  function Assigns(piece: string, f: Field): (x: Option<Value>)
    ensures x.Some? ==> (x.value.Text? <==> IsText(f))
  {
    var line := LineOf(piece);
    if Skipped(line) || Split(line).None? then None
    else PairAssigns(Split(line).value, f)
  }

  /** The last of the assignments to a field. */
  function LastAssigned(pieces: seq<string>, f: Field): (x: Option<Value>) {
    if pieces == [] then None
    else
      var last := Assigns(pieces[|pieces| - 1], f);
      if last.Some? then last else LastAssigned(pieces[..|pieces| - 1], f)
  }

  /** The number of pieces before the first that cannot be read. */
  function ReadablePrefix(pieces: seq<string>): (n: nat)
    ensures n <= |pieces|
    ensures forall i :: 0 <= i < n ==> Readable(pieces[i])
    ensures n < |pieces| ==> !Readable(pieces[n])
  {
    if pieces == [] || !Readable(pieces[0]) then 0 else 1 + ReadablePrefix(pieces[1..])
  }

  lemma ParseLineGets(c: Values, piece: string, f: Field)
    ensures ParseLine(c, piece).ok <==> Readable(piece)
    ensures !Readable(piece) ==> ParseLine(c, piece).values == c
    ensures Get(ParseLine(c, piece).values, f) == Or(Assigns(piece, f), Get(c, f))
  {
    hide LineOf, UpdateInOrder, Get, Interpret, Find, Matches;
    var line := LineOf(piece);
    if Split(line).Some? {
      UpdateGets(c, Split(line).value, f);
      assert line[Find(line, '=')] == '=';
    }
  }

  lemma {:induction false} LastAssignedConcat(a: seq<string>, b: seq<string>, f: Field)
    ensures LastAssigned(a + b, f)
            == if LastAssigned(b, f).Some? then LastAssigned(b, f) else LastAssigned(a, f)
  {
    hide Assigns;
    if b == [] {
      assert a + b == a;
    } else {
      assert (a + b)[..|a + b| - 1] == a + b[..|b| - 1];
      LastAssignedConcat(a, b[..|b| - 1], f);
    }
  }

  lemma LastAssignedCons(piece: string, rest: seq<string>, f: Field)
    ensures LastAssigned([piece] + rest, f)
            == if LastAssigned(rest, f).Some? then LastAssigned(rest, f) else Assigns(piece, f)
  {
    hide Assigns;
    LastAssignedConcat([piece], rest, f);
    assert [piece][..0] == [];
  }

  /**
    Parsing succeeds if and only if every piece is readable. Each field ends up with the last value
    validly assigned to it before the first unreadable piece, or keeps the value it had.
   */
  lemma {:induction false} LastAssignmentWins(c: Values, pieces: seq<string>, f: Field)
    ensures Parse(c, pieces).ok <==> forall i :: 0 <= i < |pieces| ==> Readable(pieces[i])
    ensures Get(Parse(c, pieces).values, f)
            == Or(LastAssigned(pieces[..ReadablePrefix(pieces)], f), Get(c, f))
    decreases |pieces|
  {
    hide ParseLine, Get, Assigns, Readable;
    if pieces != [] {
      var p := ParseLine(c, pieces[0]);
      ParseLineGets(c, pieces[0], f);
      if p.ok {
        LastAssignmentWins(p.values, pieces[1..], f);
        var n := ReadablePrefix(pieces[1..]);
        assert pieces[..n + 1] == [pieces[0]] + pieces[1..][..n];
        LastAssignedCons(pieces[0], pieces[1..][..n], f);
        assert forall i :: 0 < i < |pieces| ==> pieces[i] == pieces[1..][i - 1];
      }
    }
  }

  /** All numeric settings are in range. */
  predicate InRange(c: Values) {
    forall f :: !IsText(f) ==> Low(f) <= Get(c, f).number <= High(f)
  }

  lemma {:induction false} LastAssignedInRange(pieces: seq<string>, f: Field)
    requires !IsText(f)
    ensures LastAssigned(pieces, f).Some? ==>
              LastAssigned(pieces, f).value.Number? && Low(f) <= LastAssigned(pieces, f).value.number <= High(f)
  {
    if pieces != [] {
      LastAssignedInRange(pieces[..|pieces| - 1], f);
    }
  }

  /** Whatever is parsed, settings that were in range stay in range. */
  lemma ParseKeepsRange(c: Values, pieces: seq<string>)
    requires InRange(c)
    ensures InRange(Parse(c, pieces).values)
  {
    forall f | !IsText(f)
      ensures Low(f) <= Get(Parse(c, pieces).values, f).number <= High(f)
    {
      LastAssignmentWins(c, pieces, f);
      LastAssignedInRange(pieces[..ReadablePrefix(pieces)], f);
    }
  }
}
