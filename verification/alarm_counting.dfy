/**
  Exact counting. The detection counter and the number of triggers are functions of the
  sequence of successful readings alone: failed polls, timers and commands do not matter.
 */
module AlarmCounting {
  import opened Sequences
  import opened AlarmModel
  import opened Arithmetic

  /** The successful readings of a run, failed polls erased: true for a detection. */
  function Readings(es: seq<Event>): seq<bool> {
    if es == [] then []
    else
      var before := Readings(es[..|es| - 1]);
      match es[|es| - 1].act
      case Poll(Person) => before + [true]
      case Poll(Nobody) => before + [false]
      case _ => before
  }

  /** One more reading lengthens the last run or begins another. */
  function NextRuns(ls: seq<nat>, detected: bool): (ls': seq<nat>)
    requires ls != []
    ensures ls' != []
  {
    if detected then ls[|ls| - 1 := ls[|ls| - 1] + 1] else ls + [0]
  }

  /** The lengths of the maximal runs of detections; adjacent misses enclose a run of length 0. */
  function Runs(rs: seq<bool>): (ls: seq<nat>)
    ensures ls != []
  {
    if rs == [] then [0] else NextRuns(Runs(rs[..|rs| - 1]), rs[|rs| - 1])
  }

  function Repeat(n: nat): (r: seq<bool>) {
    seq(n, _ => true)
  }

  /** Detections in runs of the given lengths, one miss between successive runs. */
  function Spread(ls: seq<nat>): seq<bool> {
    if ls == [] then []
    else if |ls| == 1 then Repeat(ls[0])
    else Spread(ls[..|ls| - 1]) + [false] + Repeat(ls[|ls| - 1])
  }

  /** The run lengths determine the readings: they are the decomposition at the misses. */
  lemma {:induction false} SpreadRuns(rs: seq<bool>)
    ensures Spread(Runs(rs)) == rs
  {
    if rs != [] {
      var before := rs[..|rs| - 1];
      SpreadRuns(before);
      var ls := Runs(before);
      var n := |ls| - 1;
      assert rs == before + [rs[|rs| - 1]];
      if rs[|rs| - 1] {
        assert Repeat(ls[n] + 1) == Repeat(ls[n]) + [true];
        assert ls[n := ls[n] + 1][..n] == ls[..n];
      } else {
        assert (ls + [0])[..n + 1] == ls;
        assert Repeat(0) == [];
      }
    }
  }

  /** The complete groups of `d` in a run of `n`. */
  function Groups(n: nat, d: nat): nat
    requires d > 0
  {
    n / d
  }

  function SumOfQuotients(ls: seq<nat>, d: nat): nat
    requires d > 0
  {
    if ls == [] then 0
    else SumOfQuotients(ls[..|ls| - 1], d) + Groups(ls[|ls| - 1], d)
  }

  /** The current unbroken run of detections. */
  function Current(es: seq<Event>): nat {
    LastRun(Readings(es))
  }

  function LastRun(rs: seq<bool>): nat {
    Runs(rs)[|Runs(rs)| - 1]
  }

  function Quota(rs: seq<bool>, d: nat): nat
    requires d > 0
  {
    SumOfQuotients(Runs(rs), d)
  }

  /** The triggers a run owes to its readings: one for each `threshold + 1` detections in a row. */
  function Due(p: Params, es: seq<Event>): nat {
    Quota(Readings(es), p.threshold + 1)
  }

  lemma RunsAppend(rs: seq<bool>, detected: bool)
    ensures Runs(rs + [detected]) == NextRuns(Runs(rs), detected)
  {
    hide NextRuns;
    AppendParts(rs, detected);
  }

  lemma SumNextRuns(ls: seq<nat>, d: nat, detected: bool)
    requires d > 0 && ls != []
    ensures var x := ls[|ls| - 1];
            var ls' := NextRuns(ls, detected);
            && ls'[|ls'| - 1] == (if detected then x + 1 else 0)
            && SumOfQuotients(ls', d)
               == SumOfQuotients(ls, d) + if detected then Groups(x + 1, d) - Groups(x, d) else 0
  {
    var n := |ls| - 1;
    if detected {
      assert NextRuns(ls, detected)[..n] == ls[..n];
      hide Groups;
    } else {
      AppendParts(ls, 0);
      DivModUnique(0, d, 0, 0);
    }
  }

  lemma OneReading(rs: seq<bool>, d: nat, detected: bool)
    requires d > 0
    ensures LastRun(rs + [detected]) == if detected then LastRun(rs) + 1 else 0
    ensures Quota(rs + [detected], d)
            == Quota(rs, d) + if detected then Groups(LastRun(rs) + 1, d) - Groups(LastRun(rs), d) else 0
  {
    RunsAppend(rs, detected);
    SumNextRuns(Runs(rs), d, detected);
    hide Runs, NextRuns, SumOfQuotients, Groups;
  }

  lemma LastReading(es: seq<Event>)
    requires es != []
    ensures var before := Readings(es[..|es| - 1]);
            Readings(es) == match es[|es| - 1].act
                            case Poll(Person) => before + [true]
                            case Poll(Nobody) => before + [false]
                            case _ => before
  {
  }

  lemma NextReading(p: Params, es: seq<Event>)
    requires es != []
    ensures var before := es[..|es| - 1];
            var d := p.threshold + 1;
            match es[|es| - 1].act
            case Poll(Person) =>
              && Current(es) == Current(before) + 1
              && Due(p, es) - Groups(Current(before) + 1, d) == Due(p, before) - Groups(Current(before), d)
            case Poll(Nobody) =>
              Current(es) == 0 && Due(p, es) == Due(p, before)
            case _ =>
              Current(es) == Current(before) && Due(p, es) == Due(p, before)
  {
    hide Readings, LastRun, Quota, Groups;
    var rs := Readings(es[..|es| - 1]);
    LastReading(es);
    if es[|es| - 1].act.Poll? && !es[|es| - 1].act.reading.Failed? {
      OneReading(rs, p.threshold + 1, es[|es| - 1].act.reading.Person?);
    }
  }

  /** One event moves the counter as the run length moves modulo `threshold + 1`. */
  lemma NextCount(p: Params, s: State, e: Event, x: nat)
    requires s.count == x % (p.threshold + 1)
    ensures var d := p.threshold + 1;
            var s' := Step(p, s, e);
            match e.act
            case Poll(Person) =>
              s'.count == (x + 1) % d && |s'.alerts| - |s.alerts| == Groups(x + 1, d) - Groups(x, d)
            case Poll(Nobody) => s'.count == 0 % d && s'.alerts == s.alerts
            case _ => s'.count == s.count && s'.alerts == s.alerts
  {
    if e.act == Poll(Person) {
      DivModSuccessor(x, p.threshold + 1);
    } else {
      DivModUnique(0, p.threshold + 1, 0, 0);
    }
  }

  predicate Exact(p: Params, s: State, es: seq<Event>) {
    && s.count == Current(es) % (p.threshold + 1)
    && |s.alerts| == Due(p, es)
  }

  lemma NextExact(p: Params, s: State, es: seq<Event>)
    requires es != [] && Exact(p, s, es[..|es| - 1])
    ensures Exact(p, Step(p, s, es[|es| - 1]), es)
  {
    hide Step;
    NextReading(p, es);
    NextCount(p, s, es[|es| - 1], Current(es[..|es| - 1]));
  }

  /**
    The counter is the current run of detections modulo `threshold + 1`, and the triggers so far
    number the sum over all maximal runs of their length divided by `threshold + 1`.
   */
  lemma {:induction false} ExactCount(p: Params, t: Time, es: seq<Event>)
    requires Feasible(p, Initial(t), es)
    ensures After(p, Initial(t), es).count == Current(es) % (p.threshold + 1)
    ensures |After(p, Initial(t), es).alerts| == Due(p, es)
  {
    hide Step;
    if es == [] {
      var ls := Runs(Readings(es));
      assert ls == [0] && ls[..|ls| - 1] == [];
      assert SumOfQuotients(ls, p.threshold + 1) == 0;
      DivModUnique(0, p.threshold + 1, 0, 0);
    } else {
      ExactCount(p, t, es[..|es| - 1]);
      NextExact(p, After(p, Initial(t), es[..|es| - 1]), es);
    }
  }
}
