/** The TCP server: fixed arrays of accept slots and listeners, updated in place. */
module TcpServer {
  import opened Options
  import opened Sequences
  import opened SessionModel
  import opened ListenerModel

  class TcpServer {
    const acceptInfo: array<Slot>
    const listenSd: array<int>
    const listenEvents: array<bool>
    var listenSdArrayMax: nat
    var tcpListenRun: bool
    /** The pipe that creation makes; no field of the server refers to it. */
    ghost const pipe: Pipe
    ghost var journal: seq<Change>

    ghost predicate Valid()
      reads this
    {
      && acceptInfo.Length == SLOTS
      && listenSd.Length == listenEvents.Length == LISTEN_LIMIT
      && listenSdArrayMax <= LISTEN_LIMIT
    }

    ghost function View(): Net
      reads this, acceptInfo, listenSd, listenEvents
    {
      Net(pipe, acceptInfo[..], listenSd[..], listenEvents[..], listenSdArrayMax, tcpListenRun, journal)
    }

    ghost function Repr(): set<object> {
      {this, acceptInfo, listenSd, listenEvents}
    }

    constructor (pipe: Pipe)
      ensures Valid() && fresh(Repr()) && this.pipe == pipe && View() == Created(pipe)
    {
      acceptInfo := new Slot[SLOTS](_ => Slot(-1, 0, None));
      listenSd := new int[LISTEN_LIMIT](_ => -1);
      listenEvents := new bool[LISTEN_LIMIT](_ => false);
      listenSdArrayMax := 0;
      tcpListenRun := false;
      this.pipe := pipe;
      journal := Piping(pipe);
    }

    /** Makes the socket calls on one candidate; -1 if one of them fails. */
    method SetUp(c: Candidate) returns (sd: int)
      modifies this`journal
      ensures sd == if c.socket >= 0 && (c.inet6 ==> c.v6only >= 0) && c.reuse == 0 && c.recvbuf >= 0
                       && c.bound >= 0 && c.listening >= 0 then c.socket else -1
      ensures journal == old(journal) + ChangesOf(c)
    {
      sd := c.socket;
      if sd < 0 {
        return -1;
      }
      journal := journal + [Opened(sd)];
      if (c.inet6 && c.v6only < 0) || c.reuse != 0 || c.recvbuf < 0 || c.bound < 0 || c.listening < 0 {
        journal := journal + [Closed(sd)];
        sd := -1;
      }
    }

    /**
      Examines the candidates in order, keeping the sockets on which every call succeeds and closing
      the others, until the list is full or the candidates are used up.
     */
    method Compact(cs: seq<Candidate>, sd: array<int>)
      returns (sockMax: int, sarrayMax: nat, ghost examined: nat)
      requires Valid() && sd.Length == LISTEN_LIMIT && sd !in Repr()
      modifies sd, this`journal
      ensures Examines(cs, examined)
      ensures sarrayMax <= LISTEN_LIMIT && sd[..sarrayMax] == Sockets(cs[..examined])
      ensures journal == old(journal) + Changes(cs[..examined])
      ensures sockMax == -1 <==> sarrayMax == 0
    {
      sockMax, sarrayMax := -1, 0;
      var i := 0;
      ghost var kept: seq<int>, made: seq<Change> := [], [];
      NoCandidate(cs);
      hide *;
      while i < |cs| && sarrayMax < LISTEN_LIMIT
        invariant i <= |cs| && sarrayMax <= LISTEN_LIMIT && Examined(cs, i, kept, made)
        invariant |kept| == sarrayMax && forall k :: 0 <= k < sarrayMax ==> sd[k] == kept[k]
        invariant journal == old(journal) + made
        invariant sockMax >= -1 && (sockMax == -1 <==> sarrayMax == 0)
        invariant sarrayMax == LISTEN_LIMIT ==> i > 0 && Usable(cs[i - 1])
        decreases |cs| - i
      {
        NextCandidate(cs, i, kept, made);
        Associative(old(journal), made, ChangesOf(cs[i]));
        sd[sarrayMax] := SetUp(cs[i]);
        kept, made := kept + SocketOf(cs[i]), made + ChangesOf(cs[i]);
        i := i + 1;
        if sd[sarrayMax] < 0 {
          continue;
        }
        if sd[sarrayMax] > sockMax {
          sockMax := sd[sarrayMax];
        }
        sarrayMax := sarrayMax + 1;
      }
      examined := i;
      AllExamined(cs, i, kept, made);
    }

    /** Stores the sockets kept and registers a listener for each. */
    method Register(sd: array<int>, sarrayMax: nat)
      requires Valid() && sd.Length == LISTEN_LIMIT && sd !in Repr() && sarrayMax <= LISTEN_LIMIT
      modifies listenSd, listenEvents
      ensures forall k :: 0 <= k < LISTEN_LIMIT ==>
                listenSd[k] == (if k < sarrayMax then sd[k] else old(listenSd[k]))
      ensures forall k :: 0 <= k < LISTEN_LIMIT ==>
                listenEvents[k] == (k < sarrayMax || old(listenEvents[k]))
    {
      for i := 0 to sarrayMax
        invariant forall k :: 0 <= k < LISTEN_LIMIT ==>
                    listenSd[k] == (if k < i then sd[k] else old(listenSd[k]))
        invariant forall k :: 0 <= k < LISTEN_LIMIT ==>
                    listenEvents[k] == (k < i || old(listenEvents[k]))
      {
        listenSd[i] := sd[i];
        listenEvents[i] := true;
      }
    }

    /**
      Starts the server on the address candidates; false if there is no port or no socket could be
      set up. A failing address lookup gives no candidates.
     */
    method Start(port: string, cs: seq<Candidate>) returns (ok: bool, ghost examined: nat)
      requires Valid() && View() == Created(pipe)
      modifies this, listenSd, listenEvents
      ensures Valid()
      ensures port == "" ==> !ok && View() == Created(pipe)
      ensures port != "" ==>
                && Examines(cs, examined)
                && View() == Started(pipe, cs, examined)
                && (ok <==> Sockets(cs[..examined]) != [])
      ensures ok <==> port != "" &&
                      exists k :: 0 <= k < |cs| && cs[k].socket >= 0
                        && (cs[k].inet6 ==> cs[k].v6only >= 0) && cs[k].reuse == 0
                        && cs[k].recvbuf >= 0 && cs[k].bound >= 0 && cs[k].listening >= 0
    {
      if port == "" {
        return false, 0;
      }
      var sd := new int[LISTEN_LIMIT];
      var sockMax, sarrayMax;
      sockMax, sarrayMax, examined := Compact(cs, sd);
      SomeKept(cs, examined);
      hide Sockets, Changes, Examines;
      listenSdArrayMax := sarrayMax;
      if sockMax == -1 {
        return false, examined;
      }
      assert forall k :: 0 <= k < sarrayMax ==> sd[..sarrayMax][k] == sd[k];
      Register(sd, sarrayMax);
      tcpListenRun := true;
      return true, examined;
    }

    /** A connection arrives at listener `i`. */
    method Accept(i: nat, attempt: Attempt, deadline: nat)
      requires Valid() && i < LISTEN_LIMIT
      requires attempt.AcceptFails? || attempt.fd >= 0
      modifies acceptInfo, this`journal
      ensures View() == SessionModel.Accept(old(View()), i, attempt, deadline)
    {
      var k := 10 * i;
      ghost var slots := acceptInfo[..];
      while k < 10 * i + ACCEPT_LIMIT
        invariant 10 * i <= k <= 10 * i + 10
        invariant FreeFrom(slots, 10 * i, 10 * i + 10) == FreeFrom(slots, k, 10 * i + 10)
      {
        if acceptInfo[k].sd == -1 {
          break;
        }
        k := k + 1;
      }
      if k == 10 * i + ACCEPT_LIMIT {
        return;
      }
      acceptInfo[k] := acceptInfo[k].(sd := if attempt.AcceptFails? then -1 else attempt.fd);
      if acceptInfo[k].sd < 0 {
        assert acceptInfo[..] == slots;
        return;
      }
      journal := journal + [Opened(acceptInfo[k].sd)];
      acceptInfo[k] := acceptInfo[k].(stream := if attempt.FdopenFails? then -1 else acceptInfo[k].sd);
      if acceptInfo[k].stream == -1 {
        journal := journal + [Closed(acceptInfo[k].sd)];
        acceptInfo[k] := acceptInfo[k].(sd := -1);
        return;
      }
      if !attempt.Succeeds? {
        journal := journal + [Closed(acceptInfo[k].stream)];
        acceptInfo[k] := acceptInfo[k].(sd := -1);
        return;
      }
      acceptInfo[k] := acceptInfo[k].(event := Some(deadline));
    }

    /** Releases a slot: unregisters its event and closes its descriptor. */
    method AcceptClear(k: nat)
      requires Valid() && k < SLOTS
      modifies acceptInfo, this`journal
      ensures View() == Clear(old(View()), k)
    {
      acceptInfo[k] := acceptInfo[k].(event := None);
      journal := journal + [Closed(acceptInfo[k].sd)];
      acceptInfo[k] := acceptInfo[k].(sd := -1);
    }

    /** Releases the taken slots of listener `i` by closing their streams. */
    method AcceptStop(i: nat)
      requires Valid() && i < LISTEN_LIMIT
      modifies acceptInfo, this`journal
      ensures View() == StopSlots(old(View()), 10 * i, 10 * i + 10)
    {
      ghost var end := StopSlots(View(), 10 * i, 10 * i + 10);
      for k := 10 * i to 10 * i + ACCEPT_LIMIT
        invariant StopSlots(View(), k, 10 * i + 10) == end
      {
        if acceptInfo[k].sd == -1 {
          continue;
        }
        ghost var before := View();
        acceptInfo[k] := acceptInfo[k].(event := None);
        journal := journal + [Closed(acceptInfo[k].stream)];
        acceptInfo[k] := acceptInfo[k].(sd := -1);
        assert View() == StopSlot(before, k);
      }
    }

    /** Unregisters listener `i` and closes its socket. */
    method ListenStop(i: nat)
      requires Valid() && i < LISTEN_LIMIT
      modifies listenSd, listenEvents, this`journal
      ensures View() == StopListener(old(View()), i)
    {
      listenEvents[i] := false;
      journal := journal + [Closed(listenSd[i])];
      listenSd[i] := -1;
    }

    /** Shuts the server down. */
    method Stop()
      requires Valid()
      modifies Repr()
      ensures Valid() && View() == SessionModel.Stop(old(View()))
    {
      ghost var n := View();
      hide StopSlot, StopListener;
      for i := 0 to listenSdArrayMax
        invariant Valid() && View() == StopSlots(n, 0, 10 * i)
      {
        AcceptStop(i);
        StopSlotsSplit(n, 0, 10 * i, 10 * i + 10);
      }
      tcpListenRun := false;
      ghost var m := View();
      for i := 0 to listenSdArrayMax
        invariant Valid() && View().listenMax == n.listenMax
        invariant StopListeners(View(), i, n.listenMax) == StopListeners(m, 0, n.listenMax)
      {
        ListenStop(i);
      }
    }
  }

  /** What the first `n` candidates have come to. */
  predicate Examined(cs: seq<Candidate>, n: nat, kept: seq<int>, made: seq<Change>) {
    n <= |cs| && kept == Sockets(cs[..n]) && made == Changes(cs[..n])
  }

  lemma NoCandidate(cs: seq<Candidate>)
    ensures Examined(cs, 0, [], [])
  {
  }

  lemma NextCandidate(cs: seq<Candidate>, i: nat, kept: seq<int>, made: seq<Change>)
    requires i < |cs| && Examined(cs, i, kept, made)
    ensures Examined(cs, i + 1, kept + SocketOf(cs[i]), made + ChangesOf(cs[i]))
    ensures if Usable(cs[i]) then cs[i].socket >= 0 && SocketOf(cs[i]) == [cs[i].socket]
            else kept + SocketOf(cs[i]) == kept
  {
    hide ChangesOf;
    TakeTake(cs, i, i + 1);
  }

  lemma AllExamined(cs: seq<Candidate>, n: nat, kept: seq<int>, made: seq<Change>)
    requires Examined(cs, n, kept, made) && |kept| <= LISTEN_LIMIT
    requires n < |cs| ==> |kept| == LISTEN_LIMIT
    requires |kept| == LISTEN_LIMIT ==> n > 0 && Usable(cs[n - 1])
    ensures Examines(cs, n) && kept == Sockets(cs[..n]) && made == Changes(cs[..n])
  {
  }

  lemma {:induction false} StopSlotsSplit(n: Net, a: nat, b: nat, c: nat)
    requires a <= b <= c <= |n.slots|
    ensures StopSlots(StopSlots(n, a, b), b, c) == StopSlots(n, a, c)
    decreases b - a
  {
    if a < b {
      hide StopSlot;
      assert |StopSlot(n, a).slots| == |n.slots| by { StopSlotShape(n, a); }
      StopSlotsSplit(StopSlot(n, a), a + 1, b, c);
    }
  }

  lemma StopSlotShape(n: Net, k: nat)
    requires k < |n.slots|
    ensures |StopSlot(n, k).slots| == |n.slots|
  {
  }
}
