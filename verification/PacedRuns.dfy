/** Runs of the paced shaper put together from pieces that start at any state. */
module PacedRuns {
  import opened Bytes
  import opened Framing
  import opened PacedShaper
  import opened PacedTheorems

  /** The state after a list of steps from s on. */
  ghost function From(c: Config, s: State, more: seq<Event>): Option<State>
    decreases |more|
  {
    if more == [] then Some(s)
    else if Enabled(c, s, more[0]) then From(c, Apply(c, s, more[0]), more[1..])
    else None
  }

  lemma {:induction false} ExecFrom(c: Config, run: seq<Event>, more: seq<Event>)
    requires Exec(c, run).Some?
    ensures Exec(c, run + more) == From(c, Exec(c, run).value, more)
    decreases |more|
  {
    if more == [] {
      assert run + more == run;
    } else {
      var next := run + [more[0]];
      assert next[..|next| - 1] == run;
      assert run + more == next + more[1..];
      if Exec(c, next).Some? {
        ExecFrom(c, next, more[1..]);
      } else {
        Stuck(c, next, more[1..]);
      }
    }
  }

  lemma {:induction false} Stuck(c: Config, run: seq<Event>, more: seq<Event>)
    requires Exec(c, run).None?
    ensures Exec(c, run + more).None?
  {
    if more == [] {
      assert run + more == run;
    } else {
      var n := |more| - 1;
      Stuck(c, run, more[..n]);
      assert (run + more)[..|run + more| - 1] == run + more[..n];
    }
  }

  lemma Prepend(c: Config, s: State, e: Event, more: seq<Event>)
    requires Enabled(c, s, e)
    ensures From(c, s, [e] + more) == From(c, Apply(c, s, e), more)
  {
    assert ([e] + more)[1..] == more;
  }

  /** From s to t by one step, and by the rest to u. */
  lemma Goes(c: Config, s: State, e: Event, t: State, rest: seq<Event>, u: State)
    requires Enabled(c, s, e) && Apply(c, s, e) == t && From(c, t, rest) == Some(u)
    ensures From(c, s, [e] + rest) == Some(u)
  {
    Prepend(c, s, e, rest);
  }

  lemma Takes2(c: Config, s: State, e: Event, t: State, e': Event, u: State) returns (run: seq<Event>)
    requires Enabled(c, s, e) && Apply(c, s, e) == t && Enabled(c, t, e') && Apply(c, t, e') == u
    ensures From(c, s, run) == Some(u)
  {
    Goes(c, t, e', u, [], u);
    Goes(c, s, e, t, [e'] + [], u);
    run := [e] + ([e'] + []);
  }

  lemma {:induction false} Joined(c: Config, s: State, a: seq<Event>, t: State, b: seq<Event>)
    requires From(c, s, a) == Some(t)
    ensures From(c, s, a + b) == From(c, t, b)
    decreases |a|
  {
    if a == [] {
      assert a + b == b;
    } else {
      Joined(c, Apply(c, s, a[0]), a[1..], t, b);
      assert a + b == [a[0]] + (a[1..] + b);
      Prepend(c, s, a[0], a[1..] + b);
    }
  }

  lemma Chain(c: Config, run: seq<Event>, s: State, more: seq<Event>, t: State)
    requires Exec(c, run) == Some(s) && From(c, s, more) == Some(t)
    ensures Exec(c, run + more) == Some(t)
  {
    ExecFrom(c, run, more);
  }

  // ---------- pieces ----------

  /** A Write on a drained queue restarts the surge clock and is ready to enqueue. */
  lemma WriteStarts(c: Config, s: State, p: seq<byte>, cells: seq<seq<byte>>, ds: seq<seq<byte>>) returns (run: seq<Event>, t: State)
    requires Enabled(c, s, Write(p, cells, ds)) && p != [] && s.queue == [] && s.paceErr.None?
    ensures From(c, s, run) == Some(t)
    ensures t == s.(calls := s.calls + [Call(p, cells, ds, 0, Sending)],
                    paceStart := s.now, resets := s.resets + [Reset(s.now, s.computes)])
  {
    var i := |s.calls|;
    var s1 := Apply(c, s, Write(p, cells, ds));
    var s2 := Apply(c, s1, Check(i));
    var a := Takes2(c, s, Write(p, cells, ds), s1, Check(i), s2);
    var b;
    b, t := WriteLooks(c, s2, i);
    Joined(c, s, a, s2, b);
    run := a + b;
    assert t.calls == s.calls + [Call(p, cells, ds, 0, Sending)];
  }

  lemma WriteLooks(c: Config, s: State, i: nat) returns (run: seq<Event>, t: State)
    requires At(s, i, Checked) && s.queue == []
    ensures From(c, s, run) == Some(t)
    ensures t == s.(calls := SetPhase(s, i, Sending), paceStart := s.now, resets := s.resets + [Reset(s.now, s.computes)])
  {
    var u := Apply(c, s, Look(i));
    t := Apply(c, u, ResetSurge(i));
    run := Takes2(c, s, Look(i), u, ResetSurge(i), t);
  }

  /** The pacer dies of the error it met. */
  lemma PacerDies(c: Config, s: State) returns (run: seq<Event>, t: State)
    requires s.pacer.Failing?
    ensures From(c, s, run) == Some(t)
    ensures t == s.(pacer := Dead, paceDead := true, paceErr := t.paceErr)
  {
    var u := Apply(c, s, SetErr);
    t := Apply(c, u, CloseDead);
    run := Takes2(c, s, SetErr, u, CloseDead, t);
  }

  /** Close, begun now or before, goes on to the flush. */
  lemma CloseJoins(c: Config, s: State) returns (run: seq<Event>, t: State)
    requires s.pacer.Dead? && CloserInv(s) && (s.closer.Open? || s.closer.Joining?)
    ensures From(c, s, run) == Some(t)
    ensures t == s.(done := true, closer := Flushing, closeMark := t.closeMark)
  {
    if s.closer.Open? {
      var u := Apply(c, s, CloseBegin);
      t := Apply(c, u, Join);
      run := Takes2(c, s, CloseBegin, u, Join, t);
    } else {
      t := Apply(c, s, Join);
      Goes(c, s, Join, t, [], t);
      run := [Join] + [];
    }
  }

  /** The oldest queued cell is flushed. */
  lemma HeadFlushed(c: Config, s: State) returns (run: seq<Event>, t: State)
    requires s.closer.Flushing? && s.queue != []
    ensures From(c, s, run) == Some(t)
    ensures var item := s.queue[0];
            t == s.(queue := s.queue[1..], head := s.head + 1,
                    log := s.log + [Entry(s.now, item.cell, item.data, Some(s.head))], wire := s.wire + item.cell)
  {
    var u := Apply(c, s, FlushTake);
    t := Apply(c, u, FlushOk);
    run := Takes2(c, s, FlushTake, u, FlushOk, t);
  }

  /** Nothing is left to flush, and the base is closed. */
  lemma BaseCloses(c: Config, s: State) returns (run: seq<Event>, t: State)
    requires s.closer.Flushing? && s.queue == []
    ensures From(c, s, run) == Some(t) && t == s.(closer := Closed)
  {
    var u := Apply(c, s, FlushEnd);
    t := Apply(c, u, CloseBase);
    run := Takes2(c, s, FlushEnd, u, CloseBase, t);
  }

  /** From the death of the pacer on: Close flushes the only queued cell and closes the base. */
  lemma DeadPacerCloses(c: Config, s: State) returns (run: seq<Event>, t: State)
    requires s.pacer.Failing? && CloserInv(s) && (s.closer.Open? || s.closer.Joining?) && |s.queue| == 1
    ensures From(c, s, run) == Some(t)
    ensures t.closer.Closed? && t.queue == [] && t.calls == s.calls && t.lost == s.lost && t.cuts == s.cuts
    ensures t.log == s.log + [Entry(s.now, s.queue[0].cell, s.queue[0].data, Some(s.head))]
    ensures t.wire == s.wire + s.queue[0].cell
  {
    var more, u;
    run, t := PacerDies(c, s);
    more, u := CloseJoins(c, t);
    Joined(c, s, run, t, more);
    run := run + more;
    more, t := HeadFlushed(c, u);
    Joined(c, s, run, u, more);
    run := run + more;
    more, u := BaseCloses(c, t);
    Joined(c, s, run, t, more);
    run, t := run + more, u;
  }
}
