/**
  Which address candidates become listeners. Each candidate carries the results of the socket calls
  made on it, in the order in which they are made.
 */
module ListenerModel {
  import opened Options
  import opened SessionModel

  datatype Candidate = Candidate(
    inet6: bool,
    socket: int,
    v6only: int,
    reuse: int,
    recvbuf: int,
    bound: int,
    listening: int)

  /** All the calls succeed; a failing V6ONLY option only matters for an IPv6 address. */
  predicate Usable(c: Candidate) {
    && c.socket >= 0
    && !(c.inet6 && c.v6only < 0)
    && c.reuse == 0
    && c.recvbuf >= 0
    && c.bound >= 0
    && c.listening >= 0
  }

  function SocketOf(c: Candidate): seq<int> {
    if Usable(c) then [c.socket] else []
  }

  function ChangesOf(c: Candidate): seq<Change> {
    if c.socket < 0 then []
    else if Usable(c) then [Opened(c.socket)]
    else [Opened(c.socket), Closed(c.socket)]
  }

  /** The sockets of the usable candidates, in order. */
  function Sockets(cs: seq<Candidate>): (sds: seq<int>)
    ensures forall i :: 0 <= i < |sds| ==> sds[i] >= 0
    ensures |sds| <= |cs|
  {
    if cs == [] then [] else Sockets(cs[..|cs| - 1]) + SocketOf(cs[|cs| - 1])
  }

  /** What examining candidates opens and closes. */
  function Changes(cs: seq<Candidate>): seq<Change> {
    if cs == [] then [] else Changes(cs[..|cs| - 1]) + ChangesOf(cs[|cs| - 1])
  }

  /** `n` candidates are examined: all of them, or as many as it takes to fill the list. */
  predicate Examines(cs: seq<Candidate>, n: nat) {
    && n <= |cs|
    && |Sockets(cs[..n])| <= LISTEN_LIMIT
    && (n < |cs| ==> |Sockets(cs[..n])| == LISTEN_LIMIT)
    && (|Sockets(cs[..n])| == LISTEN_LIMIT ==> n > 0 && Usable(cs[n - 1]))
  }

  /** The sockets kept are the first LISTEN_LIMIT of the usable ones, or all if they are fewer. */
  lemma KeepsFirst(cs: seq<Candidate>, n: nat)
    requires Examines(cs, n)
    ensures var all := Sockets(cs);
            Sockets(cs[..n]) == if |all| <= LISTEN_LIMIT then all else all[..LISTEN_LIMIT]
  {
    hide Sockets, Usable;
    if n == |cs| {
      assert cs[..n] == cs;
    } else {
      SocketsPrefix(cs, n);
    }
  }

  lemma {:induction false} SocketsPrefix(cs: seq<Candidate>, n: nat)
    requires n <= |cs|
    ensures Sockets(cs[..n]) <= Sockets(cs)
  {
    if n < |cs| {
      assert cs[..|cs| - 1][..n] == cs[..n];
      SocketsPrefix(cs[..|cs| - 1], n);
    } else {
      assert cs[..n] == cs;
    }
  }

  /**
    A candidate gives its socket exactly if all the calls on it succeed, the option V6ONLY counting
    only for an IPv6 address. If one fails after the socket was opened, the socket is closed again.
   */
  lemma KeptOrClosed(c: Candidate)
    ensures var good := c.socket >= 0 && (c.inet6 ==> c.v6only >= 0) && c.reuse == 0
                        && c.recvbuf >= 0 && c.bound >= 0 && c.listening >= 0;
            if c.socket < 0 then SocketOf(c) == [] && ChangesOf(c) == []
            else if good then SocketOf(c) == [c.socket] && ChangesOf(c) == [Opened(c.socket)]
            else SocketOf(c) == [] && ChangesOf(c) == [Opened(c.socket), Closed(c.socket)]
  {
  }

  /** Increasing indices of exactly the usable candidates, and their sockets. */
  predicate Indices(cs: seq<Candidate>, ks: seq<int>, sds: seq<int>) {
    && |sds| == |ks|
    && (forall j :: 0 <= j < |ks| ==> 0 <= ks[j] < |cs| && sds[j] == cs[ks[j]].socket)
    && (forall i, j :: 0 <= i < j < |ks| ==> ks[i] < ks[j])
    && (forall k :: 0 <= k < |cs| ==> (k in ks <==> Usable(cs[k])))
  }

  lemma NextIndex(cs: seq<Candidate>, ks: seq<int>, sds: seq<int>)
    requires cs != [] && Indices(cs[..|cs| - 1], ks, sds)
    ensures var n := |cs| - 1;
            if Usable(cs[n]) then Indices(cs, ks + [n], sds + SocketOf(cs[n]))
            else Indices(cs, ks, sds + SocketOf(cs[n]))
  {
    var n := |cs| - 1;
    KeptOrClosed(cs[n]);
    hide Usable, SocketOf;
    assert forall k :: 0 <= k < n ==> cs[..n][k] == cs[k];
    assert n !in ks;
    if SocketOf(cs[n]) == [] {
      assert sds + SocketOf(cs[n]) == sds;
    }
  }

  lemma {:induction false} KeptIndices(cs: seq<Candidate>) returns (ks: seq<int>)
    ensures Indices(cs, ks, Sockets(cs))
  {
    ks := [];
    if cs != [] {
      hide Indices, Usable, SocketOf;
      var n := |cs| - 1;
      ks := KeptIndices(cs[..n]);
      NextIndex(cs, ks, Sockets(cs[..n]));
      if Usable(cs[n]) {
        ks := ks + [n];
      }
    }
  }

  /**
    The sockets kept are those of the first ten candidates on which every call succeeds: each kept
    one is such a candidate's, in order, and such a candidate is passed over only if ten before it
    were kept.
   */
  lemma KeptExactly(cs: seq<Candidate>, n: nat) returns (ks: seq<int>)
    requires Examines(cs, n)
    ensures |ks| == |Sockets(cs[..n])| <= 10
    ensures forall j :: 0 <= j < |ks| ==> 0 <= ks[j] < |cs| && Sockets(cs[..n])[j] == cs[ks[j]].socket
    ensures forall i, j :: 0 <= i < j < |ks| ==> ks[i] < ks[j]
    ensures forall k :: 0 <= k < |cs| ==>
              var c := cs[k];
              var good := c.socket >= 0 && (c.inet6 ==> c.v6only >= 0) && c.reuse == 0
                          && c.recvbuf >= 0 && c.bound >= 0 && c.listening >= 0;
              k in ks <==> good && !(|ks| == 10 && forall j :: 0 <= j < |ks| ==> ks[j] < k)
  {
    ks := KeptIndices(cs[..n]);
  }

  /** There is a listener exactly if every call succeeds on some candidate. */
  lemma SomeKept(cs: seq<Candidate>, n: nat)
    requires Examines(cs, n)
    ensures Sockets(cs[..n]) != []
            <==> exists k :: 0 <= k < |cs| && cs[k].socket >= 0 && (cs[k].inet6 ==> cs[k].v6only >= 0)
                   && cs[k].reuse == 0 && cs[k].recvbuf >= 0 && cs[k].bound >= 0 && cs[k].listening >= 0
  {
    var ks := KeptExactly(cs, n);
    hide *;
    if ks != [] {
      assert ks[0] in ks;
    }
  }

  /** `socket` returns a descriptor that is not open: neither before nor kept since. */
  predicate FreshSockets(open: set<int>, cs: seq<Candidate>) {
    forall k :: 0 <= k < |cs| && cs[k].socket >= 0 ==> cs[k].socket !in open && cs[k].socket !in Sockets(cs[..k])
  }

  function AsSet(sds: seq<int>): set<int> {
    set x | x in sds
  }

  /** One more candidate: its socket is kept open, or closed again, or was never opened. */
  lemma OneMore(journal: seq<Change>, open: set<int>, sds: seq<int>, c: Candidate)
    requires Replay(journal) == Some(open + AsSet(sds)) && Distinct(sds)
    requires c.socket >= 0 ==> c.socket !in open && c.socket !in sds
    requires forall i :: 0 <= i < |sds| ==> sds[i] !in open
    ensures Replay(journal + ChangesOf(c)) == Some(open + AsSet(sds + SocketOf(c)))
    ensures Distinct(sds + SocketOf(c))
    ensures forall x :: x in sds + SocketOf(c) ==> x !in open
  {
    hide Replay;
    if c.socket < 0 {
      assert journal + [] == journal && sds + [] == sds;
    } else if Usable(c) {
      ReplayOpened(journal, c.socket);
      assert open + AsSet(sds + [c.socket]) == open + AsSet(sds) + {c.socket};
    } else {
      assert sds + [] == sds;
      ReplayTransient(journal, c.socket);
    }
  }

  /** Every socket opened along the way and not kept is closed; the kept ones are distinct. */
  lemma {:induction false} OthersClosed(journal: seq<Change>, cs: seq<Candidate>)
    requires Replay(journal).Some? && FreshSockets(Replay(journal).value, cs)
    ensures Replay(journal + Changes(cs)) == Some(Replay(journal).value + AsSet(Sockets(cs)))
    ensures Distinct(Sockets(cs))
    ensures forall x :: x in Sockets(cs) ==> x !in Replay(journal).value
  {
    hide Replay, SocketOf, ChangesOf;
    if cs == [] {
      assert journal + [] == journal;
      assert Replay(journal).value + AsSet([]) == Replay(journal).value;
    } else {
      var n := |cs| - 1;
      var open := Replay(journal).value;
      assert cs[n].socket >= 0 ==> cs[n].socket !in open && cs[n].socket !in Sockets(cs[..n]);
      FreshPrefix(open, cs, n);
      OthersClosed(journal, cs[..n]);
      hide FreshSockets, Distinct;
      OneMore(journal + Changes(cs[..n]), open, Sockets(cs[..n]), cs[n]);
      assert journal + Changes(cs) == journal + Changes(cs[..n]) + ChangesOf(cs[n]);
    }
  }

  /** `pipe` returns two descriptors that are not open. */
  predicate Piped(pipe: Pipe) {
    pipe.readEnd >= 0 && pipe.writeEnd >= 0 && pipe.readEnd != pipe.writeEnd
  }

  function Piping(pipe: Pipe): seq<Change> {
    [Opened(pipe.readEnd), Opened(pipe.writeEnd)]
  }

  /** The server before it is started; the pipe is already open. */
  function Created(pipe: Pipe): Net {
    Net(pipe, seq(SLOTS, _ => Slot(-1, 0, None)), seq(LISTEN_LIMIT, _ => -1),
        seq(LISTEN_LIMIT, _ => false), 0, false, Piping(pipe))
  }

  /** The server after it has examined `n` candidates and registered the listeners it kept. */
  function Started(pipe: Pipe, cs: seq<Candidate>, n: nat): (net: Net)
    requires n <= |cs| && |Sockets(cs[..n])| <= LISTEN_LIMIT
  {
    var sds := Sockets(cs[..n]);
    Created(pipe).(
      listenSd := seq(LISTEN_LIMIT, i requires 0 <= i < LISTEN_LIMIT => if i < |sds| then sds[i] else -1),
      listenEvents := seq(LISTEN_LIMIT, i requires 0 <= i < LISTEN_LIMIT => i < |sds|),
      listenMax := |sds|,
      running := sds != [],
      journal := Piping(pipe) + Changes(cs[..n]))
  }

  lemma FreshPrefix(open: set<int>, cs: seq<Candidate>, n: nat)
    requires n <= |cs| && FreshSockets(open, cs)
    ensures FreshSockets(open, cs[..n])
  {
    forall k | 0 <= k < n && cs[..n][k].socket >= 0
      ensures cs[..n][k].socket !in open && cs[..n][k].socket !in Sockets(cs[..n][..k])
    {
      assert cs[..n][..k] == cs[..k];
      assert cs[..n][k] == cs[k];
    }
  }

  lemma StartedFds(pipe: Pipe, cs: seq<Candidate>, n: nat)
    requires n <= |cs| && |Sockets(cs[..n])| <= LISTEN_LIMIT
    ensures var sds := Sockets(cs[..n]);
            var fds := Fds(Started(pipe, cs, n));
            && |fds| == SLOTS + LISTEN_LIMIT
            && forall i :: 0 <= i < |fds| ==>
                 fds[i] == if SLOTS <= i < SLOTS + |sds| then sds[i - SLOTS] else -1
  {
    hide Sockets, Changes;
  }

  /** A server that has just started satisfies the invariant of the session table. */
  lemma StartedInv(pipe: Pipe, cs: seq<Candidate>, n: nat)
    requires Piped(pipe) && Examines(cs, n) && FreshSockets(Ends(pipe), cs)
    ensures Inv(Started(pipe, cs, n))
  {
    var sds := Sockets(cs[..n]);
    FreshPrefix(Ends(pipe), cs, n);
    assert |sds| <= LISTEN_LIMIT;
    StartedFds(pipe, cs, n);
    hide Sockets, Changes, Replay, Examines, FreshSockets, Fds, Distinct;
    PipeOpen(pipe);
    OthersClosed(Piping(pipe), cs[..n]);
    ListenersOnly(Fds(Started(pipe, cs, n)), sds);
    hide Held;
    assert Ends(pipe) + AsSet(sds) == AsSet(sds) + Ends(pipe);
  }

  /** The listeners of a started server, by the candidates they come from. */
  lemma ListenersExactly(pipe: Pipe, cs: seq<Candidate>, n: nat) returns (ks: seq<int>)
    requires Examines(cs, n)
    ensures |ks| <= 10 && Started(pipe, cs, n).listenMax == |ks|
    ensures forall j :: 0 <= j < |ks| ==>
              && 0 <= ks[j] < |cs|
              && Started(pipe, cs, n).listenSd[j] == cs[ks[j]].socket
              && Started(pipe, cs, n).listenEvents[j]
    ensures forall j :: |ks| <= j < 10 ==>
              Started(pipe, cs, n).listenSd[j] == -1 && !Started(pipe, cs, n).listenEvents[j]
    ensures forall i, j :: 0 <= i < j < |ks| ==> ks[i] < ks[j]
    ensures forall k :: 0 <= k < |cs| ==>
              var c := cs[k];
              var good := c.socket >= 0 && (c.inet6 ==> c.v6only >= 0) && c.reuse == 0
                          && c.recvbuf >= 0 && c.bound >= 0 && c.listening >= 0;
              k in ks <==> good && !(|ks| == 10 && forall j :: 0 <= j < |ks| ==> ks[j] < k)
  {
    ks := KeptExactly(cs, n);
    hide Sockets, Changes, Examines;
  }

  lemma PipeOpen(pipe: Pipe)
    requires Piped(pipe)
    ensures Replay(Piping(pipe)) == Some(Ends(pipe))
  {
    assert Replay([]) == Some({});
    ReplayOpened([], pipe.readEnd);
    ReplayOpened([] + [Opened(pipe.readEnd)], pipe.writeEnd);
    assert Piping(pipe) == [] + [Opened(pipe.readEnd)] + [Opened(pipe.writeEnd)];
    assert {} + {pipe.readEnd} + {pipe.writeEnd} == Ends(pipe);
  }

  lemma ListenersOnly(fds: seq<int>, sds: seq<int>)
    requires |sds| <= LISTEN_LIMIT && |fds| == SLOTS + LISTEN_LIMIT && Distinct(sds)
    requires forall i :: 0 <= i < |sds| ==> sds[i] >= 0
    requires forall i :: 0 <= i < |fds| ==>
               fds[i] == if SLOTS <= i < SLOTS + |sds| then sds[i - SLOTS] else -1
    ensures Distinct(fds) && Held(fds) == AsSet(sds)
  {
    forall x | x in AsSet(sds)
      ensures x in Held(fds)
    {
      var i :| 0 <= i < |sds| && sds[i] == x;
      assert fds[SLOTS + i] == x;
    }
  }
}
