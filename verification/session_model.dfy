/**
  The session table of the TCP server as values: the accept slots of each listener, the listeners,
  the pipe made with the server, and the journal of every descriptor opened and closed.
 */
module SessionModel {
  import opened Options

  const LISTEN_LIMIT: nat := 10
  const ACCEPT_LIMIT: nat := 10
  const SLOTS: nat := 100

  /**
    An accept slot. `sd` is -1 while the slot is free. `stream` is the descriptor under the `FILE`
    last opened in the slot; it is left behind when the slot is cleared. `event` is the deadline
    of the registered read event.
   */
  datatype Slot = Slot(sd: int, stream: int, event: Option<nat>)

  datatype Change = Opened(fd: int) | Closed(fd: int)

  /** The two descriptors that `pipe` returns. */
  datatype Pipe = Pipe(readEnd: int, writeEnd: int)

  function Ends(pipe: Pipe): set<int> {
    {pipe.readEnd, pipe.writeEnd}
  }

  /**
    Listener `i` owns the slots from `10 * i` up to `10 * i + 9`. The pipe is opened with the server
    and kept nowhere, so that nothing can close it.
   */
  datatype Net = Net(
    pipe: Pipe,
    slots: seq<Slot>,
    listenSd: seq<int>,
    listenEvents: seq<bool>,
    listenMax: nat,
    running: bool,
    journal: seq<Change>)

  /** How an accept attempt turns out. The descriptors come from the operating system. */
  datatype Attempt =
    | AcceptFails
    | FdopenFails(fd: int)
    | InitFails(fd: int)
    | RegisterFails(fd: int)
    | Succeeds(fd: int)

  predicate Shaped(n: Net) {
    && |n.slots| == SLOTS
    && |n.listenSd| == |n.listenEvents| == LISTEN_LIMIT
    && n.listenMax <= LISTEN_LIMIT
  }

  /** The first free slot from `k` on, or `end`. */
  function FreeFrom(slots: seq<Slot>, k: nat, end: nat): (f: nat)
    requires k <= end <= |slots|
    ensures k <= f <= end
    ensures forall m :: k <= m < f ==> slots[m].sd != -1
    ensures f < end ==> slots[f].sd == -1
    decreases end - k
  {
    if k == end || slots[k].sd == -1 then k else FreeFrom(slots, k + 1, end)
  }

  /** The first free slot of a listener, or the end of its slots. */
  function FirstFree(n: Net, i: nat): (k: nat)
    requires i < LISTEN_LIMIT && |n.slots| == SLOTS
    ensures 10 * i <= k <= 10 * i + 10
    ensures forall m :: 10 * i <= m < k ==> n.slots[m].sd != -1
    ensures k < 10 * i + 10 ==> n.slots[k].sd == -1
  {
    FreeFrom(n.slots, 10 * i, 10 * i + 10)
  }

  function Put(n: Net, k: nat, s: Slot, changes: seq<Change>): Net
    requires k < |n.slots|
  {
    n.(slots := n.slots[k := s], journal := n.journal + changes)
  }

  function Accept(n: Net, i: nat, a: Attempt, deadline: nat): Net
    requires i < LISTEN_LIMIT && |n.slots| == SLOTS
  {
    var k := FirstFree(n, i);
    if k == 10 * i + 10 then n
    else
      var s := n.slots[k];
      match a
      case AcceptFails => n
      case FdopenFails(fd) => Put(n, k, s.(stream := -1), [Opened(fd), Closed(fd)])
      case InitFails(fd) => Put(n, k, s.(stream := fd), [Opened(fd), Closed(fd)])
      case RegisterFails(fd) => Put(n, k, s.(stream := fd), [Opened(fd), Closed(fd)])
      case Succeeds(fd) => Put(n, k, Slot(fd, fd, Some(deadline)), [Opened(fd)])
  }

  /** Releases a slot by closing its descriptor. */
  function Clear(n: Net, k: nat): Net
    requires k < |n.slots|
  {
    Put(n, k, n.slots[k].(sd := -1, event := None), [Closed(n.slots[k].sd)])
  }

  /** Releases a slot, if it is taken, by closing its stream. */
  function StopSlot(n: Net, k: nat): Net
    requires k < |n.slots|
  {
    if n.slots[k].sd == -1 then n
    else Put(n, k, n.slots[k].(sd := -1, event := None), [Closed(n.slots[k].stream)])
  }

  function StopSlots(n: Net, from: nat, end: nat): (n': Net)
    requires from <= end <= |n.slots|
    ensures |n'.slots| == |n.slots|
    ensures n' == n.(slots := n'.slots, journal := n'.journal)
    decreases end - from
  {
    if from == end then n else StopSlots(StopSlot(n, from), from + 1, end)
  }

  function StopListener(n: Net, i: nat): Net
    requires i < |n.listenSd| == |n.listenEvents|
  {
    n.(listenSd := n.listenSd[i := -1],
       listenEvents := n.listenEvents[i := false],
       journal := n.journal + [Closed(n.listenSd[i])])
  }

  function StopListeners(n: Net, from: nat, end: nat): (n': Net)
    requires from <= end <= |n.listenSd| == |n.listenEvents|
    ensures n' == n.(listenSd := n'.listenSd, listenEvents := n'.listenEvents, journal := n'.journal)
    decreases end - from
  {
    if from == end then n else StopListeners(StopListener(n, from), from + 1, end)
  }

  /** Shuts the server down: the slots of its listeners, then the listeners. */
  function Stop(n: Net): Net
    requires Shaped(n)
  {
    StopListeners(StopSlots(n, 0, 10 * n.listenMax).(running := false), 0, n.listenMax)
  }

  // ---- The invariant ----

  /** The descriptors in the table, slots first; free entries are -1. */
  function Fds(n: Net): seq<int> {
    seq(|n.slots|, k requires 0 <= k < |n.slots| => n.slots[k].sd) + n.listenSd
  }

  function Held(fds: seq<int>): set<int> {
    set fd | fd in fds && fd != -1
  }

  predicate Distinct(fds: seq<int>) {
    forall i, j :: 0 <= i < j < |fds| && fds[i] == fds[j] ==> fds[i] == -1
  }

  /** The descriptors open after a journal, `None` if one was opened or closed twice in a row. */
  function Replay(journal: seq<Change>): Option<set<int>> {
    if journal == [] then Some({})
    else
      var before := Replay(journal[..|journal| - 1]);
      if before.None? then None
      else
        match journal[|journal| - 1]
        case Opened(fd) => if fd in before.value then None else Some(before.value + {fd})
        case Closed(fd) => if fd in before.value then Some(before.value - {fd}) else None
  }

  predicate SlotInv(s: Slot) {
    && (s.sd == -1 <==> s.event.None?)
    && (s.sd != -1 ==> s.stream == s.sd)
  }

  /** The descriptors that are open: those in the table and the pipe. */
  function Open(n: Net): set<int> {
    Held(Fds(n)) + Ends(n.pipe)
  }

  /** The table and the journal agree, whether or not the server is running. */
  ghost predicate Consistent(n: Net) {
    && Shaped(n)
    && (forall k :: 0 <= k < SLOTS ==> SlotInv(n.slots[k]))
    && (forall i :: 0 <= i < LISTEN_LIMIT ==> (n.listenEvents[i] <==> n.listenSd[i] != -1))
    && Distinct(Fds(n)) && Held(Fds(n)) !! Ends(n.pipe)
    && Replay(n.journal) == Some(Open(n))
  }

  ghost predicate Inv(n: Net) {
    && Consistent(n)
    && (forall i :: 0 <= i < LISTEN_LIMIT ==> (n.listenSd[i] != -1 <==> n.running && i < n.listenMax))
    && (forall k :: 0 <= k < SLOTS && n.slots[k].sd != -1 ==> n.running && k < 10 * n.listenMax)
  }

  // ---- Opening and closing descriptors ----

  /** A journal stands for open descriptors only if it opens what is closed and closes what is open. */
  lemma ReplayExactly(journal: seq<Change>, change: Change, after: set<int>)
    ensures Replay([]) == Some({})
    ensures Replay(journal + [change]) == Some(after)
            <==> && Replay(journal).Some?
                 && match change
                    case Opened(fd) => fd !in Replay(journal).value && after == Replay(journal).value + {fd}
                    case Closed(fd) => fd in Replay(journal).value && after == Replay(journal).value - {fd}
  {
    assert (journal + [change])[..|journal|] == journal;
  }

  lemma ReplayOpened(journal: seq<Change>, fd: int)
    requires Replay(journal).Some? && fd !in Replay(journal).value
    ensures Replay(journal + [Opened(fd)]) == Some(Replay(journal).value + {fd})
  {
    assert (journal + [Opened(fd)])[..|journal|] == journal;
  }

  lemma ReplayClosed(journal: seq<Change>, fd: int)
    requires Replay(journal).Some? && fd in Replay(journal).value
    ensures Replay(journal + [Closed(fd)]) == Some(Replay(journal).value - {fd})
  {
    assert (journal + [Closed(fd)])[..|journal|] == journal;
  }

  lemma ReplayTransient(journal: seq<Change>, fd: int)
    requires Replay(journal).Some? && fd !in Replay(journal).value
    ensures Replay(journal + [Opened(fd), Closed(fd)]) == Replay(journal)
  {
    ReplayOpened(journal, fd);
    ReplayClosed(journal + [Opened(fd)], fd);
    assert journal + [Opened(fd), Closed(fd)] == journal + [Opened(fd)] + [Closed(fd)];
  }

  lemma HeldTakes(fds: seq<int>, k: nat, fd: int)
    requires k < |fds| && fds[k] == -1 && fd != -1 && fd !in Held(fds) && Distinct(fds)
    ensures Held(fds[k := fd]) == Held(fds) + {fd}
    ensures Distinct(fds[k := fd])
  {
    var after := fds[k := fd];
    forall x | x in Held(fds) + {fd}
      ensures x in Held(after)
    {
      if x == fd {
        assert after[k] == fd;
      } else {
        var i :| 0 <= i < |fds| && fds[i] == x;
        assert after[i] == x;
      }
    }
  }

  lemma HeldReleases(fds: seq<int>, k: nat)
    requires k < |fds| && fds[k] != -1 && Distinct(fds)
    ensures fds[k] in Held(fds)
    ensures Held(fds[k := -1]) == Held(fds) - {fds[k]}
    ensures Distinct(fds[k := -1])
  {
    var after := fds[k := -1];
    forall x | x in Held(fds) - {fds[k]}
      ensures x in Held(after)
    {
      var i :| 0 <= i < |fds| && fds[i] == x;
      assert after[i] == x;
    }
    forall x | x in Held(after)
      ensures x in Held(fds) - {fds[k]}
    {
      var i :| 0 <= i < |after| && after[i] == x;
      assert fds[i] == x;
    }
  }

  lemma FdsPut(n: Net, k: nat, s: Slot, changes: seq<Change>)
    requires k < |n.slots|
    ensures Fds(Put(n, k, s, changes)) == Fds(n)[k := s.sd]
    ensures Fds(n)[k] == n.slots[k].sd
  {
  }

  lemma FdsStopListener(n: Net, i: nat)
    requires Shaped(n) && i < LISTEN_LIMIT
    ensures Fds(StopListener(n, i)) == Fds(n)[SLOTS + i := -1]
    ensures Fds(n)[SLOTS + i] == n.listenSd[i]
  {
  }

  lemma WithPipe(held: set<int>, ends: set<int>, fd: int)
    ensures held + {fd} + ends == held + ends + {fd}
    ensures fd !in ends ==> held - {fd} + ends == held + ends - {fd}
  {
  }

  // ---- What each operation keeps ----

  /** The operating system returns a descriptor that is not open. */
  ghost predicate Fresh(n: Net, a: Attempt) {
    a.AcceptFails? || (a.fd >= 0 && a.fd !in Open(n))
  }

  lemma AcceptConsistent(n: Net, i: nat, a: Attempt, deadline: nat)
    requires Consistent(n) && i < LISTEN_LIMIT && Fresh(n, a)
    ensures Consistent(Accept(n, i, a, deadline))
  {
    var k := FirstFree(n, i);
    if k < 10 * i + 10 && !a.AcceptFails? {
      var s := n.slots[k];
      if a.Succeeds? {
        var s' := Slot(a.fd, a.fd, Some(deadline));
        FdsPut(n, k, s', [Opened(a.fd)]);
        HeldTakes(Fds(n), k, a.fd);
        ReplayOpened(n.journal, a.fd);
        WithPipe(Held(Fds(n)), Ends(n.pipe), a.fd);
      } else {
        var s' := s.(stream := if a.FdopenFails? then -1 else a.fd);
        FdsPut(n, k, s', [Opened(a.fd), Closed(a.fd)]);
        assert Fds(n)[k := -1] == Fds(n);
        ReplayTransient(n.journal, a.fd);
      }
    }
  }

  /**
    An accept attempt changes no slot but the first free one of its listener, is refused if and only
    if there is none, and takes the slot if and only if it succeeds.
   */
  lemma AcceptTakesFirstFree(n: Net, i: nat, a: Attempt, deadline: nat)
    requires Inv(n) && n.running && i < n.listenMax && Fresh(n, a)
    ensures var n' := Accept(n, i, a, deadline);
            var k := FirstFree(n, i);
            && Inv(n')
            && (forall m :: 0 <= m < SLOTS && m != k ==> n'.slots[m] == n.slots[m])
            && n' == n.(slots := n'.slots, journal := n'.journal)
            && (k == 10 * i + 10 <==> forall m :: 10 * i <= m < 10 * i + 10 ==> n.slots[m].sd != -1)
            && (k == 10 * i + 10 ==> n' == n)
            && (forall m :: 10 * i <= m < k ==> n.slots[m].sd != -1)
            && (k < 10 * i + 10 ==>
                  n.slots[k].sd == -1 && n'.slots[k].sd == if a.Succeeds? then a.fd else -1)
  {
    ShapedFirst(n);
    AcceptConsistent(n, i, a, deadline);
    hide Consistent, FreeFrom, FirstFree;
  }

  lemma ShapedFirst(n: Net)
    requires Consistent(n)
    ensures Shaped(n)
  {
  }

  /** Clearing a taken slot closes exactly its descriptor. */
  lemma ClearReleases(n: Net, k: nat)
    requires Inv(n) && k < SLOTS && n.slots[k].sd != -1
    ensures Inv(Clear(n, k))
    ensures Open(Clear(n, k)) == Open(n) - {n.slots[k].sd}
  {
    FdsPut(n, k, n.slots[k].(sd := -1, event := None), [Closed(n.slots[k].sd)]);
    HeldReleases(Fds(n), k);
    ReplayClosed(n.journal, n.slots[k].sd);
    WithPipe(Held(Fds(n)), Ends(n.pipe), n.slots[k].sd);
  }

  lemma StopSlotConsistent(n: Net, k: nat)
    requires Consistent(n) && k < SLOTS
    ensures Consistent(StopSlot(n, k))
    ensures StopSlot(n, k).slots[k].sd == -1
    ensures forall m :: 0 <= m < SLOTS && m != k ==> StopSlot(n, k).slots[m] == n.slots[m]
  {
    var sd := n.slots[k].sd;
    if sd != -1 {
      assert SlotInv(n.slots[k]);
      FdsPut(n, k, n.slots[k].(sd := -1, event := None), [Closed(sd)]);
      HeldReleases(Fds(n), k);
      ReplayClosed(n.journal, sd);
      WithPipe(Held(Fds(n)), Ends(n.pipe), sd);
    }
  }

  lemma {:induction false} StopSlotsConsistent(n: Net, from: nat, end: nat)
    requires Consistent(n) && from <= end <= SLOTS
    ensures var n' := StopSlots(n, from, end);
            && Consistent(n')
            && (forall m :: from <= m < end ==> n'.slots[m].sd == -1)
            && (forall m :: 0 <= m < SLOTS && !(from <= m < end) ==> n'.slots[m] == n.slots[m])
    decreases end - from
  {
    if from < end {
      StopSlotConsistent(n, from);
      hide Consistent, StopSlot;
      ShapedFirst(n);
      ShapedFirst(StopSlot(n, from));
      StopSlotsConsistent(StopSlot(n, from), from + 1, end);
    }
  }

  lemma StopListenerConsistent(n: Net, i: nat)
    requires Consistent(n) && i < LISTEN_LIMIT && n.listenSd[i] != -1
    ensures Consistent(StopListener(n, i))
  {
    FdsStopListener(n, i);
    HeldReleases(Fds(n), SLOTS + i);
    ReplayClosed(n.journal, n.listenSd[i]);
    WithPipe(Held(Fds(n)), Ends(n.pipe), n.listenSd[i]);
  }

  lemma {:induction false} StopListenersConsistent(n: Net, from: nat, end: nat)
    requires Consistent(n) && from <= end <= LISTEN_LIMIT
    requires forall i :: from <= i < end ==> n.listenSd[i] != -1
    ensures var n' := StopListeners(n, from, end);
            && Consistent(n')
            && n'.slots == n.slots && n'.running == n.running && n'.listenMax == n.listenMax
            && (forall i :: 0 <= i < LISTEN_LIMIT ==>
                  n'.listenSd[i] == if from <= i < end then -1 else n.listenSd[i])
    decreases end - from
  {
    if from < end {
      StopListenerConsistent(n, from);
      hide Consistent;
      ShapedFirst(n);
      StopListenersConsistent(StopListener(n, from), from + 1, end);
    }
  }

  /** Every slot is free, nothing is registered, and of all descriptors only the pipe is still open. */
  ghost predicate Drained(n: Net) {
    && (forall k :: 0 <= k < |n.slots| ==> n.slots[k].sd == -1 && n.slots[k].event == None)
    && (forall i :: 0 <= i < |n.listenSd| ==> n.listenSd[i] == -1)
    && (forall i :: 0 <= i < |n.listenEvents| ==> !n.listenEvents[i])
    && Replay(n.journal) == Some(Ends(n.pipe))
  }

  lemma NothingHeld(n: Net)
    requires Consistent(n)
    requires forall k :: 0 <= k < SLOTS ==> n.slots[k].sd == -1
    requires forall i :: 0 <= i < LISTEN_LIMIT ==> n.listenSd[i] == -1
    ensures Drained(n)
  {
    assert Held(Fds(n)) == {};
    assert forall k :: 0 <= k < SLOTS ==> SlotInv(n.slots[k]);
    assert {} + Ends(n.pipe) == Ends(n.pipe);
  }

  lemma StopEmpties(n: Net)
    requires Inv(n) && n.running
    ensures var d := Stop(n);
            && Consistent(d) && d.pipe == n.pipe && d.listenMax == n.listenMax && !d.running
            && (forall k :: 0 <= k < SLOTS ==> d.slots[k].sd == -1)
            && (forall i :: 0 <= i < LISTEN_LIMIT ==> d.listenSd[i] == -1)
  {
    var end := 10 * n.listenMax;
    StopSlotsConsistent(n, 0, end);
    var m := StopSlots(n, 0, end);
    hide StopSlots, StopListeners;
    SwitchedOff(m);
    StopListenersConsistent(m.(running := false), 0, n.listenMax);
  }

  lemma SwitchedOff(n: Net)
    requires Consistent(n)
    ensures Consistent(n.(running := false))
  {
    assert Fds(n.(running := false)) == Fds(n);
  }

  /**
    Shutting the server down closes every open descriptor but the pipe, each once, and leaves
    nothing registered. The pipe stays open.
   */
  lemma StopDrains(n: Net)
    requires Inv(n) && n.running
    ensures Inv(Stop(n)) && Drained(Stop(n))
    ensures Stop(n).pipe == n.pipe && Stop(n).listenMax == n.listenMax && !Stop(n).running
  {
    StopEmpties(n);
    hide Stop, Held, Fds, Replay, Distinct, Drained;
    NothingHeld(Stop(n));
  }
}
