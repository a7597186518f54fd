/** The settings by name: which keys set which setting, in any case, and to what. */
module ConfigKeys {
  import opened Options
  import opened CStrings
  import opened Numerals
  import opened ConfigModel
  import opened LineReader
  import opened ConfigLines

  // ---- Case ----

  /** Two letters that are the same but for ASCII case, or the same character. */
  predicate SameLetter(c: char, d: char) {
    || c == d
    || ('A' <= c <= 'Z' && d as int == c as int + 32)
    || ('a' <= c <= 'z' && d as int == c as int - 32)
  }

  lemma LowerForgetsCase(c: char, d: char)
    ensures SameLetter(c, d) <==> Lower(c) == Lower(d)
  {
  }

  /** A key that begins with a text, but for case. */
  predicate Begins(key: string, text: string) {
    |text| <= |key| && forall i :: 0 <= i < |text| ==> SameLetter(text[i], key[i])
  }

  lemma MatchesByLetter(f: Field, key: string)
    ensures Matches(f, key) <==> Begins(key, KeyOf(f))
  {
    hide KeyOf, SameLetter, Lower;
    forall i | 0 <= i < |KeyOf(f)| && i < |key|
      ensures SameLetter(KeyOf(f)[i], key[i]) <==> Lower(KeyOf(f)[i]) == Lower(key[i])
    {
      LowerForgetsCase(KeyOf(f)[i], key[i]);
    }
  }

  /** Keys that differ in case alone do the same. */
  lemma CaseIgnored(c: Values, key: string, key': string, text: string)
    requires |key| == |key'| && forall i :: 0 <= i < |key| ==> SameLetter(key[i], key'[i])
    ensures Update(c, KeyValue(key, text)) == Update(c, KeyValue(key', text))
  {
    var d, d' := Update(c, KeyValue(key, text)), Update(c, KeyValue(key', text));
    forall f
      ensures Get(d, f) == Get(d', f)
    {
      hide Update, Interpret, Matches, Get;
      UpdateGets(c, KeyValue(key, text), f);
      UpdateGets(c, KeyValue(key', text), f);
      SameMatch(f, key, key');
    }
    hide *;
    Extensional(d, d');
  }

  lemma SameMatch(f: Field, key: string, key': string)
    requires |key| == |key'| && forall i :: 0 <= i < |key| ==> SameLetter(key[i], key'[i])
    ensures Matches(f, key) == Matches(f, key')
  {
    hide KeyOf, SameLetter, Lower;
    forall i | 0 <= i < |key|
      ensures Lower(key[i]) == Lower(key'[i])
    {
      LowerForgetsCase(key[i], key'[i]);
    }
  }

  // ---- What each key sets ----

  lemma OneEntryGets(c: Values, kv: KeyValue, f: Field, g: Field)
    requires Matches(f, kv.key)
    ensures Get(Update(c, kv), g) == Get(Assign(c, f, kv.value), g)
  {
    hide Update, Interpret, Matches, Get, Set;
    UpdateGets(c, kv, g);
    if Matches(g, kv.key) {
      OneMatch(f, g, kv.key);
    }
  }

  /** Only the matching entry of the table does anything. */
  lemma OneEntryAssigns(c: Values, kv: KeyValue, f: Field)
    requires Matches(f, kv.key)
    ensures Update(c, kv) == Assign(c, f, kv.value)
  {
    hide *;
    forall g
      ensures Get(Update(c, kv), g) == Get(Assign(c, f, kv.value), g)
    {
      OneEntryGets(c, kv, f, g);
    }
    Extensional(Update(c, kv), Assign(c, f, kv.value));
  }

  lemma NoEntryAssigns(c: Values, kv: KeyValue)
    requires forall f :: !Matches(f, kv.key)
    ensures Update(c, kv) == c
  {
    forall g
      ensures Get(Update(c, kv), g) == Get(c, g)
    {
      hide Update, Interpret, Matches, Get;
      UpdateGets(c, kv, g);
    }
    hide *;
    Extensional(Update(c, kv), c);
  }

  /** A number becomes the integer from `lo` to `hi` that a text writes, if it writes one. */
  ghost predicate Takes(text: string, lo: int, hi: int, before: int, after: int) {
    && (forall n :: lo <= n <= hi && IntegerText(text, n) ==> after == n)
    && ((forall n :: lo <= n <= hi ==> !IntegerText(text, n)) ==> after == before)
  }

  lemma TakesNumber(c: Values, f: Field, text: string)
    requires !IsText(f)
    ensures Takes(text, Low(f), High(f), Get(c, f).number, Get(Assign(c, f, text), f).number)
  {
    forall n | Low(f) <= n <= High(f)
      ensures Interpret(f, text) == Some(Number(n)) <==> IntegerText(text, n)
    {
      TakesNumbers(f, text, n);
    }
    hide Strtol, Get, IntegerText;
  }

  /** What a key and a text make of a configuration, for every key: the eight names and their ranges. */
  ghost predicate Sets(c: Values, key: string, text: string, c': Values) {
    && (Begins(key, "first_alert_script") ==> c' == c.(firstAlertScript := text))
    && (Begins(key, "second_alert_script") ==> c' == c.(secondAlertScript := text))
    && (Begins(key, "rpc_port") ==> c' == c.(rpcPort := text))
    && (Begins(key, "pid_file_path") ==> c' == c.(pidFilePath := text))
    && (Begins(key, "cancel_wait_time") ==>
          && c' == c.(cancelWaitTime := c'.cancelWaitTime)
          && Takes(text, 5, 86400, c.cancelWaitTime, c'.cancelWaitTime))
    && (Begins(key, "poll_interval") ==>
          && c' == c.(pollInterval := c'.pollInterval)
          && Takes(text, 1000, 255000, c.pollInterval, c'.pollInterval))
    && (Begins(key, "alert_threshold") ==>
          && c' == c.(alertThreshold := c'.alertThreshold)
          && Takes(text, 1, 65535, c.alertThreshold, c'.alertThreshold))
    && (Begins(key, "rpc_timeout") ==>
          && c' == c.(rpcTimeout := c'.rpcTimeout)
          && Takes(text, 5, 3600, c.rpcTimeout, c'.rpcTimeout))
    && (Names(key) || c' == c)
  }

  /** A key that begins with one of the eight names. */
  predicate Names(key: string) {
    || Begins(key, "first_alert_script")
    || Begins(key, "second_alert_script")
    || Begins(key, "rpc_port")
    || Begins(key, "pid_file_path")
    || Begins(key, "cancel_wait_time")
    || Begins(key, "poll_interval")
    || Begins(key, "alert_threshold")
    || Begins(key, "rpc_timeout")
  }

  lemma TextNames()
    ensures KeyOf(FirstAlertScript) == "first_alert_script"
    ensures KeyOf(SecondAlertScript) == "second_alert_script"
    ensures KeyOf(RpcPort) == "rpc_port"
    ensures KeyOf(PidFilePath) == "pid_file_path"
  {
  }

  lemma NumberNames()
    ensures KeyOf(CancelWaitTime) == "cancel_wait_time"
    ensures KeyOf(PollInterval) == "poll_interval"
    ensures KeyOf(AlertThreshold) == "alert_threshold"
    ensures KeyOf(RpcTimeout) == "rpc_timeout"
  {
  }

  lemma TextKeySets(c: Values, key: string, text: string, f: Field)
    requires IsText(f) && Begins(key, KeyOf(f))
    ensures Update(c, KeyValue(key, text)) == Set(c, f, Text(text))
  {
    hide KeyOf, Begins, Update, Matches, Set;
    MatchesByLetter(f, key);
    OneEntryAssigns(c, KeyValue(key, text), f);
  }

  lemma NumberKeySets(c: Values, key: string, text: string, f: Field)
    requires !IsText(f) && Begins(key, KeyOf(f))
    ensures var c' := Update(c, KeyValue(key, text));
            && c' == Set(c, f, Get(c', f))
            && Takes(text, Low(f), High(f), Get(c, f).number, Get(c', f).number)
  {
    hide KeyOf, Begins, Update, Matches, Takes, Strtol;
    MatchesByLetter(f, key);
    OneEntryAssigns(c, KeyValue(key, text), f);
    TakesNumber(c, f, text);
    hide Low, High;
  }

  lemma OneOfEight(f: Field)
    ensures KeyOf(f) in {"first_alert_script", "second_alert_script", "rpc_port", "pid_file_path",
                         "cancel_wait_time", "poll_interval", "alert_threshold", "rpc_timeout"}
  {
    TextNames();
    NumberNames();
    hide KeyOf;
    match f {
      case FirstAlertScript =>
      case SecondAlertScript =>
      case RpcPort =>
      case PidFilePath =>
      case CancelWaitTime =>
      case PollInterval =>
      case AlertThreshold =>
      case RpcTimeout =>
    }
  }

  lemma OtherKeysSetNothing(c: Values, key: string, text: string)
    requires !Names(key)
    ensures Update(c, KeyValue(key, text)) == c
  {
    TextNames();
    NumberNames();
    hide KeyOf, Begins, Update, Matches;
    forall f
      ensures !Matches(f, key)
    {
      MatchesByLetter(f, key);
      OneOfEight(f);
    }
    NoEntryAssigns(c, KeyValue(key, text));
  }

  lemma TextKeysSet(c: Values, key: string, text: string)
    ensures var c' := Update(c, KeyValue(key, text));
            && (Begins(key, "first_alert_script") ==> c' == c.(firstAlertScript := text))
            && (Begins(key, "second_alert_script") ==> c' == c.(secondAlertScript := text))
            && (Begins(key, "rpc_port") ==> c' == c.(rpcPort := text))
            && (Begins(key, "pid_file_path") ==> c' == c.(pidFilePath := text))
  {
    TextNames();
    hide KeyOf, Begins, Update;
    if Begins(key, "first_alert_script") { TextKeySets(c, key, text, FirstAlertScript); }
    if Begins(key, "second_alert_script") { TextKeySets(c, key, text, SecondAlertScript); }
    if Begins(key, "rpc_port") { TextKeySets(c, key, text, RpcPort); }
    if Begins(key, "pid_file_path") { TextKeySets(c, key, text, PidFilePath); }
  }

  lemma TimeKeysSet(c: Values, key: string, text: string)
    ensures var c' := Update(c, KeyValue(key, text));
            && (Begins(key, "cancel_wait_time") ==>
                  && c' == c.(cancelWaitTime := c'.cancelWaitTime)
                  && Takes(text, 5, 86400, c.cancelWaitTime, c'.cancelWaitTime))
            && (Begins(key, "poll_interval") ==>
                  && c' == c.(pollInterval := c'.pollInterval)
                  && Takes(text, 1000, 255000, c.pollInterval, c'.pollInterval))
  {
    NumberNames();
    hide KeyOf, Begins, Update, Takes;
    if Begins(key, "cancel_wait_time") { NumberKeySets(c, key, text, CancelWaitTime); }
    if Begins(key, "poll_interval") { NumberKeySets(c, key, text, PollInterval); }
  }

  lemma LimitKeysSet(c: Values, key: string, text: string)
    ensures var c' := Update(c, KeyValue(key, text));
            && (Begins(key, "alert_threshold") ==>
                  && c' == c.(alertThreshold := c'.alertThreshold)
                  && Takes(text, 1, 65535, c.alertThreshold, c'.alertThreshold))
            && (Begins(key, "rpc_timeout") ==>
                  && c' == c.(rpcTimeout := c'.rpcTimeout)
                  && Takes(text, 5, 3600, c.rpcTimeout, c'.rpcTimeout))
  {
    NumberNames();
    hide KeyOf, Begins, Update, Takes;
    if Begins(key, "alert_threshold") { NumberKeySets(c, key, text, AlertThreshold); }
    if Begins(key, "rpc_timeout") { NumberKeySets(c, key, text, RpcTimeout); }
  }

  /** A key sets the setting whose name it begins with, in any case, and no other. */
  lemma KeySets(c: Values, key: string, text: string)
    ensures Sets(c, key, text, Update(c, KeyValue(key, text)))
  {
    hide Begins, Update, Takes, Names;
    TextKeysSet(c, key, text);
    TimeKeysSet(c, key, text);
    LimitKeysSet(c, key, text);
    if !Names(key) {
      OtherKeysSetNothing(c, key, text);
    }
  }

  // ---- Keys in capitals ----

  lemma FirstCapitals()
    ensures Begins("FIRST_ALERT_SCRIPT", "first_alert_script")
  {
  }

  lemma SecondCapitals()
    ensures Begins("SECOND_ALERT_SCRIPT", "second_alert_script")
  {
  }

  lemma OtherTextCapitals()
    ensures Begins("RPC_PORT", "rpc_port")
    ensures Begins("PID_FILE_PATH", "pid_file_path")
  {
  }

  lemma TimeCapitals()
    ensures Begins("CANCEL_WAIT_TIME", "cancel_wait_time")
    ensures Begins("POLL_INTERVAL", "poll_interval")
  {
  }

  lemma LimitCapitals()
    ensures Begins("ALERT_THRESHOLD", "alert_threshold")
    ensures Begins("RPC_TIMEOUT", "rpc_timeout")
  {
  }

  lemma BeginsLonger(key: string, start: string, text: string)
    requires Begins(start, text)
    ensures start <= key ==> Begins(key, text)
  {
    hide SameLetter;
    assert start <= key ==> forall i :: 0 <= i < |start| ==> key[i] == start[i];
  }

  /** A key that begins with a name in capitals begins with the name. */
  lemma Capitals(key: string)
    ensures "FIRST_ALERT_SCRIPT" <= key ==> Begins(key, "first_alert_script")
    ensures "SECOND_ALERT_SCRIPT" <= key ==> Begins(key, "second_alert_script")
    ensures "RPC_PORT" <= key ==> Begins(key, "rpc_port")
    ensures "PID_FILE_PATH" <= key ==> Begins(key, "pid_file_path")
    ensures "CANCEL_WAIT_TIME" <= key ==> Begins(key, "cancel_wait_time")
    ensures "POLL_INTERVAL" <= key ==> Begins(key, "poll_interval")
    ensures "ALERT_THRESHOLD" <= key ==> Begins(key, "alert_threshold")
    ensures "RPC_TIMEOUT" <= key ==> Begins(key, "rpc_timeout")
  {
    hide Begins;
    FirstCapitals();
    SecondCapitals();
    OtherTextCapitals();
    TimeCapitals();
    LimitCapitals();
    BeginsLonger(key, "FIRST_ALERT_SCRIPT", "first_alert_script");
    BeginsLonger(key, "SECOND_ALERT_SCRIPT", "second_alert_script");
    BeginsLonger(key, "RPC_PORT", "rpc_port");
    BeginsLonger(key, "PID_FILE_PATH", "pid_file_path");
    BeginsLonger(key, "CANCEL_WAIT_TIME", "cancel_wait_time");
    BeginsLonger(key, "POLL_INTERVAL", "poll_interval");
    BeginsLonger(key, "ALERT_THRESHOLD", "alert_threshold");
    BeginsLonger(key, "RPC_TIMEOUT", "rpc_timeout");
  }

  // ---- A line of a file ----

  /** What an empty file leaves the daemon with. */
  lemma EmptyFile()
    ensures Parse(DEFAULTS, Pieces("", 255))
            == Parsed(true, Values("/var/ids/first_alert_script.sh", "/var/ids/second_alert_script.sh",
                                   "18000", "/var/run/ids.pid", 60, 5000, 12, 60))
  {
  }

  /** Reading a line that assigns a text to a key, whatever pieces follow. */
  lemma LineSets(c: Values, piece: string, rest: seq<string>, line: string,
                 key: string, text: string, i: nat, n: nat)
    requires forall k :: 0 <= k < |piece| ==> piece[k] != '\0'
    requires EndsAfter(piece, line) && line != [] && line[0] != '#'
    requires Assignment(line, key, text, i, n)
    ensures exists c' :: Sets(c, key, text, c') && Parse(c, [piece] + rest) == Parse(c', rest)
  {
    assert !Skipped(line);
    hide *;
    LineBeforeEnd(piece, line);
    SplitsAsWritten(line, key, text, i, n);
    KeySets(c, key, text);
    SplitLineParses(c, piece, rest, KeyValue(key, text));
  }

  lemma SplitLineParses(c: Values, piece: string, rest: seq<string>, kv: KeyValue)
    requires !Skipped(LineOf(piece)) && Split(LineOf(piece)) == Some(kv)
    ensures Parse(c, [piece] + rest) == Parse(Update(c, kv), rest)
  {
    hide LineOf, Split, Update;
    assert ([piece] + rest)[1..] == rest;
  }

  // ---- Numbers ----

  /** What a text of digits stands for, place by place. */
  lemma PlacesOfTen(digits: string, d: char)
    requires AllDigits(digits) && '0' <= d <= '9'
    ensures AllDigits(digits + [d]) && AllDigits("")
    ensures ValueOf("") == 0
    ensures ValueOf(digits + [d]) == 10 * ValueOf(digits) + (d as int - 48)
  {
    assert (digits + [d])[..|digits|] == digits;
  }

  /** The characters that may come before a number: blank, tab, newline, and three more. */
  lemma SpaceCharacters(c: char)
    ensures IsSpace(c) <==> c == ' ' || 9 <= c as int <= 13
    ensures IsDigit(c) <==> 48 <= c as int <= 57
  {
  }
}
