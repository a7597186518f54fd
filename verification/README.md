# The ids daemon: a verified model

`ids` watches a motion sensor. It polls the sensor, counts detections in a row, and when the count
passes a threshold it runs a first alert script and arms a timer; unless somebody cancels in time,
the timer runs a second script. Clients control it over a line protocol on TCP, a signal ends it,
and a configuration file sets it up. All of it runs in one thread, driven by an event loop.

The project models the daemon as the C code has it: objects whose methods update their fields,
buffers stripped and split in place, fixed arrays of listeners and accept slots. Each object is
proved to compute a function on values, and the theorems are about those functions, over every
input and every run.

## How it is laid out

| files | what they hold |
|---|---|
| `alarm_model.dfy` | the alarm machine as a labelled transition system; one event is one callback |
| `alarm_invariants.dfy`, `alarm_counting.dfy`, `alarm_history.dfy`, `alarm_timing.dfy`, `alarm_erasure.dfy` | what holds on every run of it |
| `alarm.dfy`, `rpc_model.dfy`, `rpc.dfy` | the alert, sensor and RPC objects |
| `session_model.dfy`, `listener_model.dfy`, `tcp_server.dfy` | the session table, the choice of listeners, and the server object over its arrays |
| `c_strings.dfy`, `numerals.dfy`, `stdio.dfy` | C strings in buffers, `%d` and `strtol`, `fgets` |
| `config_model.dfy`, `line_reader.dfy`, `config_print.dfy`, `config_limits.dfy`, `config.dfy` | the configuration: its meaning, its reader, its print, and the object |
| `config_lines.dfy`, `config_keys.dfy` | the same meaning written out: lines by their characters, settings by their names, ranges and defaults |
| `daemon_model.dfy`, `daemon_runs.dfy`, `daemon_reach.dfy` | the whole daemon, what holds on its runs, and which alarm runs it can show |
| `daemon_effects.dfy`, `daemon_clock.dfy` | what each event does, with the texts and numbers of the protocol written out, and exactly when it can happen |
| `ids.dfy` | the daemon object: the wiring in `main`, the callbacks and the event loop |
| `options.dfy`, `sequences.dfy`, `arithmetic.dfy` | optional values, and small facts about sequences and quotients |

`dafny verify dfyconfig.toml` checks everything.

## Modelling choices

- An event is stamped with the time at which it is dispatched, in microseconds. Time does not run
  backwards, a timer does not fire before its deadline (it may fire late, and two due timers may fire
  in either order), a one-shot event that fires is no longer registered, and deleting an event
  removes it even when it is about to be dispatched.
- A poll yields a detection, no detection, or a failure. A script launch is an entry in a log, and so
  is a line "alert!!". Operating-system calls are inputs: each accept attempt and each address
  candidate carries the results of its calls, and a descriptor that is returned is not already open.
- `int` settings stay far inside the range of `int` (`Ids.ParsedInRange`). The comparison of
  the `unsigned long` counter with the `int` threshold and the wrap-around of the counter are written
  out in `Alarm.Sensor.Polling` and shown to be harmless (`Alarm.ComparisonFaithful`). `long` has 64 bits.
- A stale `errno` is an arbitrary number. A NUL byte in a file or request ends the line there, as in C.
- What the host answers while the daemon starts is an input (`Ids.Host`): whether it can go into the
  background, make its pid file and open the sensor, what `pipe` returns, and the address candidates. A
  failing address lookup gives no candidates.
- Descriptors are conserved, streams are not: releasing a slot after a request closes the descriptor
  and abandons the `FILE`, while shutting down closes through the `FILE`. The model keeps both numbers
  and proves that they agree when it matters.

## Where the code and its documentation differ

The model follows the code.

- The threshold is described as the number of detections that starts an alert; the code needs one more.
- The README of the repository lists the replies `FIRST`, `SECOND` and `NG`; the code sends `FIRST ALERT` and
  `SECOND ALERT`, and never `NG`.
- The poll interval is described as a multiple of 1 ms; the code takes any number of microseconds in range.
- A value that a setting does not take is ignored silently, although the parser has a message for it.
- A configuration line longer than 255 characters is read as several lines; lines of a given length are
  read as lines whatever is in them exactly when they fit (`LineReader.FitsExactly`).
- The server has a field for a pipe that is to end its event loop (`ids/tcpsock.h:72-73`). The code opens a
  pipe with each server but neither stores nor closes its two descriptors, so they outlive every shutdown
  (`SessionModel.StopDrains`).

## Model

| member | source | states |
|---|---|---|
| AlarmHistory.LogIsOwed | ids/sensor.c:138-152 | On every run the script log is the one found by looking through the whole history: trigger where a run of detections completes, heed it only while monitored and no alarm is open, close it by the second timer or the first cancel, stop or termination |
| AlarmHistory.LogFrom | ids/alert.c:136-165 | The same from any point of a run at which no alarm is open: what is added to the log is what the remaining history owes |
| AlarmHistory.OneAlarm | ids/alert.c:75-86 | One alarm, from the trigger that opens it to the event that closes it, adds a first launch and, only if the second timer closes it, a second launch |
| AlarmHistory.OpeningAgrees | ids/sensor.c:139-148 | With no alarm open, the machine launches the first script exactly at the events where the history shows a completed group of detections while monitored |
| AlarmHistory.AnswersFollow | ids/rpc.c:92-124 | The answers to both status queries are determined by the history: the last event that touches the display, and the last start or stop |
| AlarmCounting.ExactCount | ids/sensor.c:110-152 | With failed polls erased, the counter is the current run of detections modulo threshold + 1, and the triggers number the sum over all maximal runs of length / (threshold + 1) |
| AlarmCounting.SpreadRuns | ids/sensor.c:139-152 | The run lengths used for counting are the decomposition of the readings at the misses |
| AlarmInvariants.Reachable | ids/alert.c:75-165 | In every reachable state the open-alarm flag and the second timer agree, the deadline is the last first launch plus the grace time, and every second launch directly follows its first |
| AlarmInvariants.Conservation | ids/alert.c:139-165 | First launches = second launches + cancels, stops and terminations that met an open alarm + 1 if an alarm is open |
| AlarmInvariants.ReachableExactly | ids/alert.c:75-182 | The reachable control states are exactly the five combinations of monitor, status and open-alarm flag, each with every count up to the threshold |
| AlarmInvariants.NeverAborts | ids/rpc.c:111-124 | No command makes a reachable daemon abort |
| AlarmTiming.TriggersApart | ids/sensor.c:141-159 | Successive triggers are at least (threshold + 1) poll intervals apart |
| AlarmTiming.TriggerWindow | ids/sensor.c:141-159 | A window of time holds at most span / gap + 1 triggers |
| AlarmTiming.CountIsCardinality | ids/sensor.c:141-159 | The count of a window is the number of entries in it |
| AlarmTiming.TimesAreLaunches | ids/alert.c:75-156 | The launch times of a script are those of all its entries in the log, in order |
| AlarmTiming.SecondsApart | ids/alert.c:140-153 | Any two second launches are at least the grace time apart, whatever is cancelled between |
| AlarmTiming.SecondWindow | ids/alert.c:140-153 | A window of time holds at most span / grace + 1 second launches |
| AlarmTiming.FirstsApart | ids/alert.c:140-153 | With no cancel or stop between them, first launches are at least the grace time apart |
| AlarmTiming.FirstWindow | ids/alert.c:140-153 | With no cancel or stop, a window of time holds at most span / grace + 1 first launches |
| AlarmTiming.DeadlineFixed | ids/alert.c:139-153 | Retriggers, clears, queries and starts leave the deadline of an open alarm and the log alone |
| AlarmTiming.SecondAnswersFirst | ids/alert.c:75-86 | Each second launch answers the first launch directly before it in the log, made at least the grace time earlier, with no cancel, stop or termination between |
| AlarmErasure.Erasure | ids/rpc.c:86-140 | Removing clears, queries, unknown commands, timeouts and starts while running from a run leaves a run with the same log, counter, monitor flag and timers |
| AlarmErasure.ErasesExactly | ids/rpc.c:92-140 | Erasing leaves no query, clear, unknown command or timeout, and keeps everything else but starts, in order |
| AlarmErasure.CommandsDoNotCount | ids/sensor.c:138-152 | Two runs with the same polls have the same counter and trigger times, whatever else happens in them |
| AlarmErasure.StoppedIsSilent | ids/rpc.c:79-85 | From a stop to the next start nothing is launched, no second timer is armed, and the answers are GOOD and STOPPING |
| AlarmErasure.CancelPrevents | ids/alert.c:160-165 | A cancel, stop or termination prevents the second launch of the open alarm in every continuation: the next launch is a first one |
| Alarm.ComparisonFaithful | ids/sensor.c:141-156 | For settings in range the counter does not wrap, the unsigned comparison is the intended one and the microseconds of the poll timer are normalised |
| Alarm.Alert.constructor | ids/alert.c:89-124 | A new alert shows no alert and has no alarm open |
| Alarm.Alert.StartFirst | ids/alert.c:136-156 | Shows the first alert; launches the script and arms the timer only if no alarm is open |
| Alarm.Alert.StartSecond | ids/alert.c:75-86 | Shows the second alert, launches its script and closes the alarm |
| Alarm.Alert.Cancel | ids/alert.c:160-165 | Disarms the timer, closes the alarm and clears the display, launching nothing |
| Alarm.Alert.ClearStatus | ids/alert.c:177-179 | Clears the display and nothing else |
| Alarm.Alert.GetStatus | ids/alert.c:182-184 | Reports the displayed status |
| Alarm.Sensor.constructor | ids/sensor.c:179-202 | A new sensor monitors, with nothing counted and no poll registered |
| Alarm.Sensor.Start | ids/sensor.c:267-271 | The first poll is registered two seconds ahead |
| Alarm.Sensor.Polling | ids/sensor.c:94-160 | A poll moves the objects as the alarm machine moves, for each of the three readings |
| Alarm.Sensor.Finish | ids/sensor.c:282-286 | Unregisters the poll |
| Alarm.Sensor.MonitorStart | ids/sensor.c:294-296 | Turns monitoring on and leaves the rest |
| Alarm.Sensor.MonitorStop | ids/sensor.c:299-301 | Turns monitoring off and leaves the rest |
| Alarm.Sensor.GetMonitorStatus | ids/sensor.c:304-306 | Reports whether monitoring is on |
| RpcModel.OneCommand | ids/rpc.c:38-43 | At most one command is a prefix of a line, so the order of the tests does not matter |
| RpcModel.DecodeExactly | ids/rpc.c:79-133 | A line is understood as a command exactly when it starts with its text |
| RpcModel.LineServed | ids/rpc.c:79-133 | For each of the six texts written out, and for a line that starts with none: what it does to monitor, timer, open alarm and display, what it leaves alone, and what is answered |
| RpcModel.RequestServed | ids/rpc.c:68-133 | The same for what a client sends, through the 128-byte buffer and the stripping, whatever follows the text |
| RpcModel.CommandUnderstood | ids/rpc.c:68-133 | A request that starts with a command is understood as that command, whatever follows it, through the 128-byte buffer and the stripping |
| Rpc.Rpc.constructor | ids/rpc.c:166-192 | Refers to the alert, sensor and server it is given |
| Rpc.Rpc.ReadRequest | ids/rpc.c:68-78 | Reads a line into the buffer and strips it in place; reports the end of the input |
| Rpc.Rpc.Execute | ids/rpc.c:79-133 | A line has the effect and the reply of the command it decodes to, and those of the text it starts with |
| Rpc.Rpc.AcceptRead | ids/rpc.c:70-145 | A readable client is served by the text its request starts with, or not answered at the end of its input, and its slot is always released |
| Rpc.Rpc.AcceptTimeout | ids/rpc.c:134-145 | A silent client gets TIMEOUT and its slot is released |
| Rpc.Rpc.Finish | ids/rpc.c:249-253 | Shuts the server down |
| SessionModel.AcceptTakesFirstFree | ids/tcpsock.c:57-104 | An accept attempt changes only the first free slot of its listener, is refused exactly when there is none, takes the slot exactly when every call succeeds, and keeps the table and the open descriptors in agreement |
| SessionModel.ClearReleases | ids/tcpsock.c:141-148 | Releasing a taken slot closes exactly its descriptor, which is open and is no other slot's |
| SessionModel.StopSlotsConsistent | ids/tcpsock.c:107-131 | Stopping frees every slot in range by closing open descriptors once, through their streams, and leaves the other slots alone |
| SessionModel.StopDrains | ids/tcpsock.c:402-422 | Shutting down closes every open descriptor once, except the two of the pipe, which are all that stays open, and leaves nothing registered |
| SessionModel.ReplayExactly | ids/tcpsock.c:57-148 | A journal stands for a set of open descriptors exactly if each opening is of a closed one and each closing of an open one |
| ListenerModel.KeepsFirst | ids/tcpsock.c:284-359 | The listeners are the first ten usable candidates, or all of them, in order |
| ListenerModel.KeptOrClosed | ids/tcpsock.c:289-335 | By the results of the calls: a socket is kept exactly if all of them succeed, V6ONLY counting for IPv6 only; otherwise it is closed if it was opened |
| ListenerModel.KeptExactly | ids/tcpsock.c:284-351 | By the results of the calls: the kept sockets are those of the first ten candidates on which all succeed, in order |
| ListenerModel.ListenersExactly | ids/tcpsock.c:353-381 | These, and no others, are stored and registered when the server starts |
| ListenerModel.SomeKept | ids/tcpsock.c:355-359 | There is a listener exactly if all calls succeed on some candidate |
| ListenerModel.OthersClosed | ids/tcpsock.c:289-351 | Every other socket opened on the way is closed once; the ones kept are distinct |
| ListenerModel.StartedInv | ids/tcpsock.c:353-381 | A server that has started satisfies the invariant of the session table |
| TcpServer.TcpServer.constructor | ids/tcpsock.c:189-224 | A new server has every slot free and no listener, and has opened a pipe |
| TcpServer.TcpServer.SetUp | ids/tcpsock.c:289-335 | A candidate yields its socket exactly if every call on it succeeds, each named in the contract; otherwise the socket is closed if it was opened |
| TcpServer.TcpServer.Compact | ids/tcpsock.c:284-351 | The array holds the usable sockets in order, no candidate is examined once it is full, and the largest socket is -1 exactly when it is empty |
| TcpServer.TcpServer.Register | ids/tcpsock.c:362-380 | Stores the sockets kept and registers a listener for each |
| TcpServer.TcpServer.Start | ids/tcpsock.c:270-381 | Registers a listener for each socket kept, and succeeds exactly when there is a port and a candidate on which every call succeeds, each named in the contract |
| TcpServer.TcpServer.Accept | ids/tcpsock.c:44-104 | An accept attempt on the arrays does what the session table does, for each way it can fail |
| TcpServer.TcpServer.AcceptClear | ids/tcpsock.c:141-148 | Releases one slot of the array and no other |
| TcpServer.TcpServer.AcceptStop | ids/tcpsock.c:107-131 | Releases the taken slots of one listener and no others |
| TcpServer.TcpServer.ListenStop | ids/tcpsock.c:413-419 | Unregisters one listener and closes its socket |
| TcpServer.TcpServer.Stop | ids/tcpsock.c:402-422 | Releases all slots, then all listeners |
| CStrings.RStripMaximal | ids/string_util.c:57-78 | Stripping on the right removes a suffix of the given characters, and the longest one |
| CStrings.LStripMaximal | ids/string_util.c:28-54 | Stripping on the left removes a prefix of the given characters, and the longest one |
| CStrings.ClearEnd | ids/string_util.c:67-75 | The loop overwrites characters of the set from the end, stops at the first other one, and touches nothing else |
| CStrings.ClearStart | ids/string_util.c:42-50 | The loop overwrites characters of the set from the start, stops at the first other one, and touches nothing else |
| CStrings.RStripInPlace | ids/string_util.c:57-78 | Leaves that string in the buffer and overwrites only the stripped characters |
| CStrings.LStripInPlace | ids/string_util.c:28-54 | Returns where that string begins and overwrites only the stripped characters |
| CStrings.Strsep | ids/string_util.c:88-90 | Ends the string at its first '=' and finds the rest, if there is one |
| CStrings.SplitInPlace | ids/string_util.c:81-104 | Fails exactly on lines without '='; otherwise key and value are left in the buffer |
| ConfigPrint.SplitIsCanonical | ids/string_util.c:81-104 | Splitting what splitting gave, joined with " = ", gives the same pair; values may contain '=' |
| ConfigLines.SplitExactly | ids/string_util.c:81-104 | A line splits into a key and a value exactly if they are what stands before and after its first '=', but for spaces and tabs after the key and on both sides of the value |
| ConfigLines.LineBeforeEnd | ids/config.c:130 | The line in the buffer is what comes before the carriage returns and newlines at its end |
| ConfigLines.NulEndsLine | ids/config.c:128-134 | What follows a NUL in a line is not read |
| ConfigLines.ReadableExactly | ids/config.c:130-140 | A piece can be read exactly if it is only a line end, begins with '#' or holds an '=' |
| Numerals.ReadExactly | ids/config.c:58-61 | A positive number is read to the end of a text exactly when the text is spaces, an optional sign and digits that write it |
| Numerals.ReadDecimal | ids/config.c:229-232 | What `%d` prints is read back, to its end |
| Config.Config.ReadInt | ids/config.c:50-75 | A number is taken exactly when its whole text converts to a value in range, whatever errno held before |
| ConfigModel.TakesNumbers | ids/config.c:50-85 | A numeric setting takes exactly the texts that write an integer in its range |
| ConfigModel.OneMatch | ids/config.c:92-102 | At most one entry of the table matches a key |
| ConfigKeys.CaseIgnored | ids/config.c:109-115 | Keys that differ in ASCII case alone do the same, whatever the value |
| ConfigKeys.KeySets | ids/config.c:78-119 | For every key, by the eight names written out: a key that begins with a name in any case sets that setting and no other, numbers only if the text writes one in the range written out; any other key sets nothing |
| ConfigKeys.Capitals | ids/config.c:109-115 | The eight names in capitals, with anything after them, are such keys |
| ConfigKeys.LineSets | ids/config.c:128-143 | A line with such a key, an '=' and a value has this effect on the file read so far |
| ConfigKeys.EmptyFile | ids/ids.c:118-127 | The eight values an empty file leaves the daemon with |
| ConfigKeys.PlacesOfTen | ids/config.c:58 | A text of digits stands for its decimal value |
| ConfigKeys.SpaceCharacters | ids/config.c:58 | Which characters are skipped before a number and which are digits |
| ConfigModel.OrderIndependent | ids/config.c:105-119 | The order of the table, and repeated entries, do not matter |
| ConfigModel.LastAssignmentWins | ids/config.c:122-147 | Parsing succeeds exactly when every piece is empty, a comment or holds '='; each setting gets its last valid assignment before the first bad piece, or keeps its value |
| ConfigModel.ParseKeepsRange | ids/config.c:62-74 | Whatever is parsed, numbers in range stay in range |
| Stdio.InputFile.Fgets | ids/config.c:128 | Takes the next piece into the buffer: up to a newline, the end, or what fits |
| Stdio.InputFile.constructor | ids/config.c:210 | A file just opened is read from its beginning |
| LineReader.BufferIsInvisible | ids/config.c:124-136 | If every line fits in 255 characters, reading pieces means the same as reading lines, also when a newline arrives alone |
| LineReader.FitsExactly | ids/config.c:124-136 | For every length: lines of it are read as lines, whatever they hold and whatever the configuration, if and only if they fit in the buffer |
| LineReader.FitsIn255 | ids/config.c:124-136 | With the buffer of the code, this is up to 255 characters |
| LineReader.LongCommentFails | ids/config.c:128-140 | A comment that does not fit fails the parse if what is left of it reads as a line of another kind |
| Config.Config.constructor | ids/config.c:150-195 | A new configuration holds the values it is given |
| Config.Config.UpdateField | ids/config.c:36-85 | One update function sets its setting to what the text stands for, or changes nothing and reports an error |
| Config.Config.Update | ids/config.c:105-119 | The loop over the table applies every matching entry, which sets what the names in any case and the ranges written out say |
| Config.Config.ParseBuffer | ids/config.c:130-144 | One line in the buffer is skipped, applied or refused |
| Config.Config.Parse | ids/config.c:122-147 | The loop over the file leaves the configuration as parsing its pieces does |
| Config.Config.PrintTexts | ids/config.c:225-228 | The first four settings are printed one to a line, in the order of the table |
| Config.Config.Print | ids/config.c:224-233 | All eight settings are printed one to a line, in the order of the table |
| ConfigPrint.ComesBack | ids/config.c:224-233 | A printable configuration comes back from its print, whatever configuration it is read into |
| ConfigLimits.RoundTripsExactly | ids/config.c:122-147 | A configuration comes back whatever it is read into if and only if its numbers are in range and each text has no newline, no blank at either end and no CR at its end, and fits on a 255-character line |
| ConfigLimits.LossyLine | ids/config.c:124-138 | A line whose text ends in CR or does not fit assigns its setting something else |
| ConfigLimits.LossyLast | ids/config.c:224-233 | No later line of a print can make up for such a line |
| DaemonModel.NextKeepsInv | ids/ids.c:38-53 | Every event keeps the alarm, the session table and the signal handlers in agreement |
| DaemonModel.RunsOfTheDaemon | ids/ids.c:188-215 | On every run of the daemon the alarm is where the alarm machine is after the events it sees |
| DaemonModel.SignalDrains | ids/ids.c:38-53 | A signal leaves no signal, poll, second-alert, listen or accept event registered, every slot free and every descriptor closed but those of the pipe, and launches nothing |
| DaemonModel.LoopEndsExactly | ids/tcpsock.c:383 | Some event can be dispatched if and only if no signal has been handled |
| DaemonModel.SignalIsLast | ids/ids.c:38-53 | A signal is the last event of every run |
| DaemonModel.SessionsConserved | ids/tcpsock.c:57-148 | On every run the open descriptors are exactly the taken slots, the listeners and the two ends of the pipe, pairwise distinct, none closed twice, with a read event for exactly the taken slots |
| DaemonEffects.ReadingsByCount | ids/sensor.c:121-152 | What each of the three readings does to counter, triggers, log, open alarm and display |
| DaemonEffects.SecondTimerCloses | ids/alert.c:75-86 | The second timer launches the second script, shows it, closes the alarm and changes nothing else |
| DaemonEffects.RequestsByText | ids/rpc.c:68-145 | Whoever speaks is served by the text that the request starts with, as written out, and loses the slot |
| DaemonEffects.OthersAnswered | ids/rpc.c:70-73 | Hanging up gets no answer and a timeout gets TIMEOUT; the slot is released and the alarm does not notice |
| DaemonClock.EverySignal | ids/ids.c:193-201 | While the daemon runs each of the three signals can be handled at any time, and only then |
| DaemonClock.OneSignal | ids/ids.c:47-49 | Once a signal has been handled none of the three can be |
| DaemonClock.PollsExactly | ids/sensor.c:155-159 | On every run the next poll can happen from two seconds after the start, or one interval after the last poll, and at no other time |
| DaemonClock.SecondExactly | ids/alert.c:140-153 | The second script can run exactly while an alarm is open, from cancel_wait_time seconds after the first script |
| DaemonClock.SecondsWait | ids/alert.c:140-153 | On every run a second launch comes cancel_wait_time seconds after the first launch directly before it, or later |
| DaemonClock.SecondLaunchesWait | ids/alert.c:140-153 | On every run two second launches are cancel_wait_time seconds apart, or more |
| DaemonClock.TriggersWait | ids/sensor.c:141-159 | On every run successive triggers are (threshold + 1) times poll_interval microseconds apart, or more |
| DaemonClock.TakenSince | ids/tcpsock.c:87-96 | On every run a taken slot was taken by a connection that succeeded, whose deadline is rpc_timeout seconds later, and nothing has released it since |
| DaemonClock.ExpiresExactly | ids/rpc.c:207-209 | On every run a client can be timed out from rpc_timeout seconds after it connected, and no earlier |
| DaemonClock.TimeoutsWait | ids/rpc.c:134-136 | Every timeout ends a connection made rpc_timeout seconds before, or earlier |
| DaemonClock.ConnectionTakes | ids/tcpsock.c:57-98 | A connection takes the first free slot of its listener with that deadline if it succeeds, and is refused if there is none |
| DaemonClock.ClientsExactly | ids/tcpsock.c:361-380 | Connections can arrive at exactly the listeners the daemon started with, while it runs, and exactly those with a slot can speak or hang up |
| DaemonRuns.DaemonKeepsItsPromises | ids/ids.c:188-215 | On every run of the daemon, whatever connects and hangs up, the log is the owed one, counter and number of triggers are exact, both queries are answered as the history says, triggers and second launches keep their distance, and alarms are conserved |
| DaemonRuns.DaemonWindows | ids/sensor.c:141-159 | On every run of the daemon a window of time holds only so many triggers and second launches |
| DaemonRuns.DaemonFirsts | ids/alert.c:140-153 | Between two points of a run of the daemon with no cancel, stop or signal between, first launches are the grace time apart and a window holds only so many |
| DaemonRuns.EndOfRun | ids/tcpsock.c:383-386 | At the end of a run the promises are kept, and some event can follow exactly if no signal has been handled |
| DaemonReach.ShownExactly | ids/tcpsock.c:383-386 | A history of polls, timers, commands and signals without client timeouts is what some run of the daemon shows if and only if it is a run of the alarm machine |
| DaemonReach.DaemonReachesExactly | ids/alert.c:75-182 | The control states of the running daemon are exactly the five combinations of monitor, status and open-alarm flag, each with every count up to the threshold |
| Ids.SettingsInRange | ids/ids.c:155-185 | The settings handed from a configuration in range to the alarm are in its range |
| Ids.ParsedInRange | ids/ids.c:118-136 | From the defaults, whatever the file says, the settings are in range |
| Ids.Ids.constructor | ids/ids.c:151-206 | The daemon is wired from its configuration, with each of the three signals and the first poll registered and its server created |
| Ids.Ids.Start | ids/rpc.c:202-236 | The loop is entered exactly if there is a port and a candidate on which every call succeeds, and then with the kept listeners registered |
| Ids.Ids.Unregister | ids/ids.c:47-52 | The signals, the second alert, the poll and the server are unregistered and nothing is launched |
| Ids.Ids.Terminate | ids/ids.c:38-53 | The signal handler does on the objects what a signal does to the daemon |
| Ids.Ids.OnPoll | ids/sensor.c:94-160 | The poll callback moves the whole daemon as the model does |
| Ids.Ids.OnSecond | ids/alert.c:75-86 | The second-timer callback moves the whole daemon as the model does |
| Ids.Ids.OnConnect | ids/tcpsock.c:44-104 | The listen callback moves the whole daemon as the model does; a slot it takes gets a deadline rpc_timeout seconds later |
| Ids.Ids.OnRead | ids/rpc.c:70-133 | The read callback moves the whole daemon and answers as the model does, and as the text of the request says |
| Ids.Ids.OnTimeout | ids/rpc.c:134-145 | The timeout callback moves the whole daemon and answers as the model does |
| Ids.Ids.Dispatch | ids/tcpsock.c:383-386 | Dispatching an event that can happen is one step of the daemon |
| Ids.Ids.Loop | ids/tcpsock.c:383-386 | The loop takes the objects through the states of a run, gives every client its answer, and leaves them with every promise of the daemon kept; it can go on exactly if no signal came |
| Ids.Launch | ids/ids.c:139-219 | From a configuration, the loop is entered exactly if the host lets the daemon start and there is a port and a usable candidate |
| Ids.Boot | ids/ids.c:118-219 | The loop is entered exactly if the file is there and can be parsed, each step of the start succeeds, and there is a port and a candidate on which every call succeeds; the daemon runs with what the file says, with the defaults if it is empty, and handles each of the three signals |

## Left out

- Finding, configuring and reading the USB device, with its retry loops: each poll is one of three readings.
- Forking and running the scripts: a launch is a log entry, and a failing fork is not told apart.
- `getaddrinfo`, the socket calls and stream buffering: their results are inputs, and a client's data is one string.
- `FILE` objects: the streams abandoned by released slots are not tracked further.
- Allocation failures, in the constructors and in the update of a text setting.
- The path on which registering a listener fails, and what `rpc_start` does after the server failed to start:
  the model only says that the loop is not entered.
- How the daemon goes into the background and makes its pid file (only whether it can), the command line, and
  diagnostic output.
- DaemonReach.ShownExactly: runs with client timeouts are left out, because each needs a client that connected
  long enough before, and only so many can be connected at a time.
- The order in which the event loop takes events that are due together: the model allows every order.
- TcpServer.TcpServer.AcceptStop: the calls of the finish callback before the release are not modelled, because that callback does nothing.
- Stdio.InputFile.Fgets: read errors are not modelled, only the end of the input.
- The CGI script, the web page, the shell scripts and the makefiles.
