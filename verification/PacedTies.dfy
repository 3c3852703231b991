/** Restarts of the surge clock at the very instant of a wakeup: a race that shows on the wire. */
module PacedTies {
  import opened Bytes
  import opened Framing
  import opened PacedShaper
  import opened PacedTheorems
  import opened PacedRuns
  import opened PacedTiming

  /** The pacer sleeps, its wakeup is due now, and nothing is queued. */
  predicate Tied(s: State) {
    s.pacer.Sleeping? && s.now == s.pacer.until && s.queue == []
  }

  /** What the pacer does at a wakeup that finds the queue empty, up to its next sleep. */
  function Covered(c: Config, s: State): State
    requires c.f.Valid()
  {
    var cover := CoverCell(c.f);
    s.(pacer := Sleeping(s.now + Interval(c, Elapsed(s.now, s.paceStart))), computes := s.computes + 1,
       log := s.log + [Entry(s.now, cover, [], None)], wire := s.wire + cover)
  }

  lemma CoverTaken(c: Config, s: State) returns (run: seq<Event>, t: State)
    requires c.Valid() && !c.pace.noPad && s.pacer.Sleeping? && s.now >= s.pacer.until && s.queue == []
    ensures From(c, s, run) == Some(t) && t == s.(pacer := Writing(Entry(s.now, CoverCell(c.f), [], None)))
  {
    CoverCarriesNothing(c.f);
    var u := Apply(c, s, Wake);
    t := Apply(c, u, Take(CoverCell(c.f)));
    run := Takes2(c, s, Wake, u, Take(CoverCell(c.f)), t);
  }

  lemma CoverWritten(c: Config, s: State) returns (run: seq<Event>)
    requires c.Valid() && !c.pace.noPad && s.pacer.Sleeping? && s.now >= s.pacer.until && s.queue == []
    ensures From(c, s, run) == Some(Covered(c, s))
  {
    var a, t := CoverTaken(c, s);
    var u := Apply(c, t, WriteOk);
    var b := Takes2(c, t, WriteOk, u, Compute, Covered(c, s));
    Joined(c, s, a, t, b);
    run := a + b;
  }

  /** Time passes until the next wakeup is due. */
  function Later(s: State): State {
    if s.pacer.Sleeping? && s.now <= s.pacer.until then s.(now := s.pacer.until) else s
  }

  /** Sleeping on to the next wakeup, which writes one more cover cell. */
  lemma NextCover(c: Config, s: State) returns (run: seq<Event>)
    requires c.Valid() && !c.pace.noPad && s.pacer.Sleeping? && s.now <= s.pacer.until && s.queue == []
    ensures From(c, s, run) == Some(Covered(c, Later(s)))
  {
    var e := Advance(s.pacer.until - s.now);
    Goes(c, s, e, Later(s), [], Later(s));
    var more := CoverWritten(c, Later(s));
    Joined(c, s, [e] + [], Later(s), more);
    run := [e] + [] + more;
  }

  lemma CoverThenCover(c: Config, s: State) returns (run: seq<Event>)
    requires c.Valid() && !c.pace.noPad && s.pacer.Sleeping? && s.now >= s.pacer.until && s.queue == []
    ensures From(c, s, run) == Some(Covered(c, Later(Covered(c, s))))
    ensures Later(Covered(c, s)).now == s.now + Interval(c, Elapsed(s.now, s.paceStart))
  {
    var t := Covered(c, s);
    IntervalBounds(c, Elapsed(s.now, s.paceStart));
    var a := CoverWritten(c, s);
    var b := NextCover(c, t);
    Joined(c, s, a, t, b);
    run := a + b;
  }

  /** A Write that restarts the surge clock and has not enqueued yet. */
  function Restarted(s: State, p: seq<byte>, cells: seq<seq<byte>>, ds: seq<seq<byte>>): State {
    s.(calls := s.calls + [Call(p, cells, ds, 0, Sending)],
       paceStart := s.now, resets := s.resets + [Reset(s.now, s.computes)])
  }

  /** The restart wins: the next delay is fresh. */
  lemma RestartFirst(c: Config, s: State, p: seq<byte>, cells: seq<seq<byte>>, ds: seq<seq<byte>>)
    returns (run: seq<Event>, t: State)
    requires c.Valid() && !c.pace.noPad && Tied(s) && s.paceErr.None? && p != [] && Enabled(c, s, Write(p, cells, ds))
    ensures From(c, s, run) == Some(t) && t.failed == s.failed && t.done == s.done
    ensures ResetTimes(t.resets) == ResetTimes(s.resets) + [s.now]
    ensures var cover := CoverCell(c.f);
            t.log == s.log + [Entry(s.now, cover, [], None)] + [Entry(s.now + Interval(c, 0), cover, [], None)]
  {
    var a, u := WriteStarts(c, s, p, cells, ds);
    var b := CoverThenCover(c, u);
    t := Covered(c, Later(Covered(c, u)));
    Joined(c, s, a, u, b);
    run := a + b;
  }

  /** The pacer wins: the next delay is the decayed one. */
  lemma PacerFirst(c: Config, s: State, p: seq<byte>, cells: seq<seq<byte>>, ds: seq<seq<byte>>)
    returns (run: seq<Event>, t: State)
    requires c.Valid() && !c.pace.noPad && Tied(s) && s.paceErr.None? && p != [] && Enabled(c, s, Write(p, cells, ds))
    ensures From(c, s, run) == Some(t) && t.failed == s.failed && t.done == s.done
    ensures ResetTimes(t.resets) == ResetTimes(s.resets) + [s.now]
    ensures var (cover, d) := (CoverCell(c.f), Interval(c, Elapsed(s.now, s.paceStart)));
            t.log == s.log + [Entry(s.now, cover, [], None)] + [Entry(s.now + d, cover, [], None)]
  {
    IntervalBounds(c, Elapsed(s.now, s.paceStart));
    var a := CoverWritten(c, s);
    var b, u := WriteStarts(c, Covered(c, s), p, cells, ds);
    Joined(c, s, a, Covered(c, s), b);
    var d := NextCover(c, u);
    Joined(c, s, a + b, u, d);
    run, t := a + b + d, Covered(c, Later(u));
  }

  /** Two logs that add a cover cell now and one later show the same exactly when it is the same later. */
  lemma SameShow(c: Config, s: State, t: State, u: State, x: int, y: int)
    requires c.f.Valid() && s.now + x >= 0 && s.now + y >= 0
    requires var cover := CoverCell(c.f);
             t.log == s.log + [Entry(s.now, cover, [], None)] + [Entry(s.now + x, cover, [], None)]
    requires var cover := CoverCell(c.f);
             u.log == s.log + [Entry(s.now, cover, [], None)] + [Entry(s.now + y, cover, [], None)]
    ensures Times(t) == Times(u) <==> x == y
    ensures Trace(t) == Trace(u) <==> x == y
  {
    var n := |s.log| + 1;
    assert Times(t)[n] == s.now + x && Times(u)[n] == s.now + y;
    assert Trace(t)[n].0 == s.now + x && Trace(u)[n].0 == s.now + y;
    if x == y {
      assert t.log == u.log;
    }
  }

  /** t and u restarted when s was tied, and look the same exactly when the two delays are. */
  ghost predicate Raced(c: Config, s: State, t: State, u: State) {
    var same := Interval(c, 0) == Interval(c, Elapsed(s.now, s.paceStart));
    && ResetTimes(t.resets) == ResetTimes(u.resets) == ResetTimes(s.resets) + [s.now]
    && |t.log| == |u.log| == |s.log| + 2
    && (Times(t) == Times(u) <==> same)
    && (Trace(t) == Trace(u) <==> same)
  }

  lemma RaceFrom(c: Config, s: State, p: seq<byte>, cells: seq<seq<byte>>, ds: seq<seq<byte>>)
    returns (a: seq<Event>, b: seq<Event>, t: State, u: State)
    requires c.Valid() && !c.pace.noPad && Tied(s) && s.paceErr.None? && p != [] && Enabled(c, s, Write(p, cells, ds))
    ensures From(c, s, a) == Some(t) && t.failed == s.failed && t.done == s.done
    ensures From(c, s, b) == Some(u) && u.failed == s.failed && u.done == s.done
    ensures Raced(c, s, t, u)
  {
    IntervalBounds(c, 0);
    IntervalBounds(c, Elapsed(s.now, s.paceStart));
    a, t := RestartFirst(c, s, p, cells, ds);
    b, u := PacerFirst(c, s, p, cells, ds);
    SameShow(c, s, t, u, Interval(c, 0), Interval(c, Elapsed(s.now, s.paceStart)));
  }

  /**
   * From every state of an ideal run in which a wakeup is due and the queue is drained, a Write
   * that restarts the surge clock at that instant can do so before the pacer computes its next
   * delay or after. The two runs restart at the same times, and an observer sees the same of
   * both exactly when the fresh and the decayed delay are the same.
   */
  lemma TieRaces(c: Config, run: seq<Event>, p: seq<byte>, cells: seq<seq<byte>>, ds: seq<seq<byte>>)
    returns (a: seq<Event>, b: seq<Event>, t: State, u: State)
    requires c.Valid() && !c.pace.noPad && Good(c, run) && Tied(Exec(c, run).value)
    requires p != [] && Enabled(c, Exec(c, run).value, Write(p, cells, ds))
    ensures Good(c, a) && Exec(c, a) == Some(t) && Good(c, b) && Exec(c, b) == Some(u)
    ensures Raced(c, Exec(c, run).value, t, u)
  {
    var s := Exec(c, run).value;
    PacedTheorems.RunInv(c, run);
    a, b, t, u := RaceFrom(c, s, p, cells, ds);
    Chain(c, run, s, a, t);
    Chain(c, run, s, b, u);
    a, b := run + a, run + b;
  }

  // ---------- such states exist at every wakeup ----------

  /** k cover cells and no Write, up to the instant of the next wakeup. */
  lemma {:induction false} CoverRun(c: Config, k: nat) returns (run: seq<Event>, s: State)
    requires c.Valid() && !c.pace.noPad && c.ideal
    ensures Good(c, run) && Exec(c, run) == Some(s) && Tied(s)
    ensures s.resets == [] && s.calls == [] && s.paceStart == 0 && s.computes == k + 1 && |s.log| == k
    ensures s.now == Due(c, [], k + 1)
  {
    var t, more;
    if k == 0 {
      IntervalBounds(c, 0);
      t := Apply(c, Init(c), Compute);
      ExecSnoc(c, [], Compute);
      run := [] + [Compute];
    } else {
      run, s := CoverRun(c, k - 1);
      more := CoverWritten(c, s);
      t := Covered(c, s);
      IntervalBounds(c, Elapsed(s.now, s.paceStart));
      Chain(c, run, s, more, t);
      run := run + more;
    }
    var e := Advance(t.pacer.until - t.now);
    s := Apply(c, t, e);
    ExecSnoc(c, run, e);
    run := run + [e];
    RunTimes(c, run);
  }

  /** A first restart tied with any wakeup: the runs of TieRaces, with all their resets. */
  lemma FreshTie(c: Config, k: nat, p: seq<byte>, cells: seq<seq<byte>>, ds: seq<seq<byte>>)
    returns (a: seq<Event>, b: seq<Event>, t: State, u: State)
    requires c.Valid() && !c.pace.noPad && c.ideal && p != [] && Framed(c.f, p, cells, ds)
    ensures Good(c, a) && Exec(c, a) == Some(t) && Good(c, b) && Exec(c, b) == Some(u)
    ensures var at := Due(c, [], k + 1);
            && at >= 0 && ResetTimes(t.resets) == ResetTimes(u.resets) == [at]
            && |t.log| == |u.log| == k + 2
            && (Times(t) == Times(u) <==> Interval(c, 0) == Interval(c, at))
            && (Trace(t) == Trace(u) <==> Interval(c, 0) == Interval(c, at))
  {
    var run, s := CoverRun(c, k);
    a, b, t, u := TieRaces(c, run, p, cells, ds);
    assert ResetTimes([]) == [];
  }
}
