/**
 * Runs of the paced shaper continued to the end: Close gets there, and what it can do to a
 * Write that has not returned or has not begun.
 */
module PacedEndings {
  import opened Bytes
  import opened Framing
  import opened PacedShaper
  import opened PacedTheorems
  import opened PacedRuns

  // ---------- a Write that Close overtakes ----------

  /** Close is under way without a base error, and call i has not returned. */
  ghost predicate Overtaken(c: Config, s: State, i: nat) {
    && PacedTheorems.Inv(c, s) && s.done && !s.failed
    && i < |s.calls| && !s.calls[i].phase.Returned?
    && (s.closer.Flushed? || s.closer.Closed? ==> s.queue == [] && s.calls[i].sent + 1 == |s.calls[i].cells|)
  }

  /** The next step of a schedule that leaves the last cell of call i behind. */
  function Move(c: Config, s: State, i: nat): Event
    requires i < |s.calls|
  {
    match s.calls[i].phase
    case Entered => Check(i)
    case Checked => Look(i)
    case Resetting => ResetSurge(i)
    case _ => if s.pacer.Stopped? then CloserMove(s, i) else PacerMove(c, s)
  }

  function PacerMove(c: Config, s: State): Event {
    if s.pacer.Ready? then Compute
    else if s.pacer.Sleeping? then Stop
    else if s.pacer.Awake? then Take(CoverCell(c.f))
    else if s.pacer.Failing? then SetErr
    else if s.pacer.ErrSet? then CloseDead
    else WriteOk
  }

  function CloserMove(s: State, i: nat): Event
    requires i < |s.calls|
  {
    if s.closer.Closed? || (s.closer.Flushing? && s.queue == [] && s.calls[i].sent + 1 < |s.calls[i].cells|) then Send(i)
    else FlushMove(s)
  }

  function FlushMove(s: State): Event {
    if s.closer.Joining? then Join
    else if s.closer.FlushHand? then FlushOk
    else if s.closer.Flushed? then CloseBase
    else if s.queue != [] then FlushTake
    else FlushEnd
  }

  function PhaseRank(ph: Phase): nat {
    if ph.Entered? then 3 else if ph.Checked? then 2 else if ph.Resetting? then 1 else 0
  }

  function PacerRank(p: Pacer): nat {
    if p.Awake? then 4 else if p.Writing? then 3 else if p.Ready? || p.Failing? then 2
    else if p.Sleeping? || p.ErrSet? then 1 else 0
  }

  function CloserRank(k: Closer): nat {
    if k.Joining? then 3 else if k.Flushing? || k.FlushHand? then 2 else if k.Flushed? then 1 else 0
  }

  function Unsent(k: Call): nat {
    if k.sent <= |k.cells| then |k.cells| - k.sent else 0
  }

  function ToFlush(s: State): nat {
    2 * |s.queue| + (if s.closer.FlushHand? then 1 else 0)
  }

  /** Call i keeps its payload and cells, and has not returned. */
  ghost predicate SameCall(s: State, s': State, i: nat) {
    && i < |s.calls| && i < |s'.calls| && !s'.calls[i].phase.Returned?
    && s'.calls[i] == s.calls[i].(sent := s'.calls[i].sent, phase := s'.calls[i].phase)
  }

  lemma MoveCall(c: Config, s: State, i: nat)
    requires Overtaken(c, s, i) && !s.calls[i].phase.Sending?
    ensures Enabled(c, s, Move(c, s, i))
    ensures var s' := Apply(c, s, Move(c, s, i));
            Overtaken(c, s', i) && SameCall(s, s', i) && PhaseRank(s'.calls[i].phase) < PhaseRank(s.calls[i].phase)
  {
    PacedTheorems.Step(c, s, Move(c, s, i));
  }

  lemma MovePacer(c: Config, s: State, i: nat)
    requires c.Valid() && Overtaken(c, s, i) && s.calls[i].phase.Sending? && !s.pacer.Stopped?
    ensures Enabled(c, s, PacerMove(c, s))
    ensures var s' := Apply(c, s, PacerMove(c, s));
            Overtaken(c, s', i) && SameCall(s, s', i) && s'.calls == s.calls && PacerRank(s'.pacer) < PacerRank(s.pacer)
  {
    CoverCarriesNothing(c.f);
    PacedTheorems.Step(c, s, PacerMove(c, s));
  }

  /** The last cell goes into a channel nobody will read again. */
  predicate Last(s: State, i: nat) {
    i < |s.calls| && s.pacer.Stopped? && s.closer.Closed?
  }

  /** One step closer to the end, with call i as far or one cell further. */
  ghost predicate Nearer(s: State, s': State, i: nat)
    requires i < |s.calls| && i < |s'.calls|
  {
    || Unsent(s'.calls[i]) < Unsent(s.calls[i])
    || (Unsent(s'.calls[i]) == Unsent(s.calls[i])
        && (|| CloserRank(s'.closer) < CloserRank(s.closer)
            || (CloserRank(s'.closer) == CloserRank(s.closer) && ToFlush(s') < ToFlush(s))))
  }

  lemma MoveCloser(c: Config, s: State, i: nat)
    requires c.Valid() && Overtaken(c, s, i) && s.calls[i].phase.Sending? && s.pacer.Stopped? && !Last(s, i)
    ensures Enabled(c, s, CloserMove(s, i))
    ensures var s' := Apply(c, s, CloserMove(s, i));
            Overtaken(c, s', i) && SameCall(s, s', i) && s'.calls[i].phase.Sending? && s'.pacer.Stopped? && Nearer(s, s', i)
  {
    assert CallOrder(s, i);
    PacedTheorems.Step(c, s, CloserMove(s, i));
    if CloserMove(s, i).Send? {
      MoveSend(c, s, i);
    } else {
      MoveFlush(c, s, i);
    }
  }

  lemma MoveSend(c: Config, s: State, i: nat)
    requires c.Valid() && Enabled(c, s, Send(i)) && s.closer.Flushing? && s.queue == []
    requires s.calls[i].sent + 1 < |s.calls[i].cells|
    ensures var s' := Apply(c, s, Send(i));
            SameCall(s, s', i) && s'.calls[i].phase.Sending? && Nearer(s, s', i)
            && s'.pacer == s.pacer && s'.closer == s.closer && s'.done == s.done && s'.failed == s.failed
  {
  }

  lemma MoveFlush(c: Config, s: State, i: nat)
    requires i < |s.calls| && Enabled(c, s, CloserMove(s, i)) && !CloserMove(s, i).Send?
    ensures var s' := Apply(c, s, CloserMove(s, i));
            s'.calls == s.calls && s'.pacer == s.pacer && Nearer(s, s', i)
  {
  }

  /** The base is closed and nothing was lost, but the last cell of call i, which succeeded, is in the queue. */
  ghost predicate Stranded(s: State, i: nat, p: seq<byte>) {
    && s.closer.Closed? && !s.failed && s.lost == 0
    && i < |s.calls| && s.calls[i].phase == Returned(Ok) && s.calls[i].p == p
    && |s.calls[i].cells| == |s.calls[i].ds| > 0
    && var n := |s.calls[i].cells| - 1;
       s.queue == [Item(i, s.calls[i].cells[n], s.calls[i].ds[n])]
  }

  lemma MoveLast(c: Config, s: State, i: nat)
    requires c.Valid() && Overtaken(c, s, i) && s.calls[i].phase.Sending? && Last(s, i)
    ensures Enabled(c, s, Send(i)) && Stranded(Apply(c, s, Send(i)), i, s.calls[i].p)
  {
    assert CallOrder(s, i);
  }

  lemma {:induction false} Strand(c: Config, s: State, i: nat) returns (more: seq<Event>)
    requires c.Valid() && Overtaken(c, s, i)
    ensures From(c, s, more).Some? && Stranded(From(c, s, more).value, i, s.calls[i].p)
    decreases PhaseRank(s.calls[i].phase), PacerRank(s.pacer), Unsent(s.calls[i]), CloserRank(s.closer), ToFlush(s)
  {
    var e := Move(c, s, i);
    if Last(s, i) && s.calls[i].phase.Sending? {
      MoveLast(c, s, i);
      more := [];
    } else {
      if !s.calls[i].phase.Sending? {
        MoveCall(c, s, i);
      } else if !s.pacer.Stopped? {
        MovePacer(c, s, i);
      } else {
        MoveCloser(c, s, i);
      }
      more := Strand(c, Apply(c, s, e), i);
    }
    Prepend(c, s, e, more);
    more := [e] + more;
  }

  /**
   * The converse of FlushOnClose: from every reachable state without a base error, whatever
   * the pacer and the other calls are doing, a Close that begins before call i returned can
   * end with call i reporting success and its last cell left in the queue for good.
   */
  lemma LateSuccessIsStranded(c: Config, run: seq<Event>, i: nat) returns (after: seq<Event>)
    requires c.Valid() && Exec(c, run).Some? && !Exec(c, run).value.failed && !Exec(c, run).value.done
    requires i < |Exec(c, run).value.calls| && !Exec(c, run).value.calls[i].phase.Returned?
    ensures Exec(c, run + [CloseBegin] + after).Some?
    ensures Stranded(Exec(c, run + [CloseBegin] + after).value, i, Exec(c, run).value.calls[i].p)
  {
    var s := Exec(c, run).value;
    PacedTheorems.RunInv(c, run);
    PacedTheorems.Step(c, s, CloseBegin);
    ExecSnoc(c, run, CloseBegin);
    after := Strand(c, Apply(c, s, CloseBegin), i);
    ExecFrom(c, run + [CloseBegin], after);
  }

  // ---------- Close gets there ----------

  /** The next step of the pacer or of Close once Close has begun. */
  function CloseMove(c: Config, s: State): Event {
    if s.pacer.Stopped? || s.pacer.Dead? then FlushMove(s) else PacerMove(c, s)
  }

  ghost predicate Closing(s: State) {
    CloserInv(s) && s.done && !s.closer.Closed?
  }

  lemma CloseMoves(c: Config, s: State)
    requires c.Valid() && Closing(s)
    ensures var e := CloseMove(c, s);
            && Enabled(c, s, e) && !CallEvent(e) && !e.Advance?
            && CloserInv(Apply(c, s, e)) && Apply(c, s, e).done
            && Apply(c, s, e).calls == s.calls && Apply(c, s, e).failed == s.failed
            && CloserNearer(s, Apply(c, s, e))
  {
    CoverCarriesNothing(c.f);
    CloserStep(c, s, CloseMove(c, s));
    if s.pacer.Stopped? || s.pacer.Dead? {
      FlushMoves(c, s);
    } else {
      PacerMoves(c, s);
    }
  }

  /** The pacer is nearer to its end, or Close is, the pacer having ended. */
  predicate CloserNearer(s: State, s': State) {
    || PacerRank(s'.pacer) < PacerRank(s.pacer)
    || (PacerRank(s'.pacer) == PacerRank(s.pacer)
        && (|| CloserRank(s'.closer) < CloserRank(s.closer)
            || (CloserRank(s'.closer) == CloserRank(s.closer) && ToFlush(s') < ToFlush(s))))
  }

  lemma FlushMoves(c: Config, s: State)
    requires Closing(s) && (s.pacer.Stopped? || s.pacer.Dead?)
    ensures Enabled(c, s, FlushMove(s)) && Apply(c, s, FlushMove(s)).done
    ensures var s' := Apply(c, s, FlushMove(s));
            s'.calls == s.calls && s'.failed == s.failed && CloserNearer(s, s')
  {
  }

  lemma PacerMoves(c: Config, s: State)
    requires c.Valid() && Closing(s) && !s.pacer.Stopped? && !s.pacer.Dead?
    ensures Enabled(c, s, PacerMove(c, s)) && Apply(c, s, PacerMove(c, s)).done
    ensures var s' := Apply(c, s, PacerMove(c, s));
            s'.calls == s.calls && s'.failed == s.failed && CloserNearer(s, s')
  {
    CoverCarriesNothing(c.f);
  }

  /** While Close is under way the pacer or Close has a step to take, whatever the calls do. */
  lemma CloseProgresses(c: Config, run: seq<Event>)
    requires c.Valid() && Exec(c, run).Some? && Exec(c, run).value.done && !Exec(c, run).value.closer.Closed?
    ensures var (s, e) := (Exec(c, run).value, CloseMove(c, Exec(c, run).value));
            Enabled(c, s, e) && !CallEvent(e) && !e.Advance?
  {
    PacedTheorems.RunInv(c, run);
    CloseMoves(c, Exec(c, run).value);
  }

  lemma {:induction false} Finish(c: Config, s: State) returns (more: seq<Event>, t: State)
    requires c.Valid() && CloserInv(s) && s.done
    ensures From(c, s, more) == Some(t) && t.closer.Closed? && t.calls == s.calls && t.failed == s.failed
    ensures forall k :: 0 <= k < |more| ==> !CallEvent(more[k]) && !more[k].Advance?
    decreases PacerRank(s.pacer), CloserRank(s.closer), ToFlush(s)
  {
    if s.closer.Closed? {
      more, t := [], s;
    } else {
      var e := CloseMove(c, s);
      CloseMoves(c, s);
      more, t := Finish(c, Apply(c, s, e));
      Prepend(c, s, e, more);
      more := [e] + more;
    }
  }

  /** And those steps alone can bring it to its end, with no help of the calls or the clock. */
  lemma CloseCanFinish(c: Config, run: seq<Event>) returns (more: seq<Event>, t: State)
    requires c.Valid() && Exec(c, run).Some? && Exec(c, run).value.done
    ensures Exec(c, run + more) == Some(t) && t.closer.Closed? && t.failed == Exec(c, run).value.failed
    ensures forall k :: 0 <= k < |more| ==> !CallEvent(more[k]) && !more[k].Advance?
  {
    PacedTheorems.RunInv(c, run);
    more, t := Finish(c, Exec(c, run).value);
    Chain(c, run, Exec(c, run).value, more, t);
  }

  // ---------- exactly which Writes are flushed ----------

  /** Call i has all its cells on the wire, in order among the first cells enqueued. */
  ghost predicate OnTheWire(s: State, i: nat) {
    var n := |Sources(s.log)|;
    && i < |s.calls| && n <= |s.enq| && |s.calls[i].cells| == |s.calls[i].ds|
    && LogCells(DataEntries(s.log)) == ItemCells(s.enq[..n])
    && ItemsOf(s.enq[..n], i) == CallItems(i, s.calls[i], |s.calls[i].cells|)
  }

  predicate Succeeded(s: State, i: nat) {
    i < |s.calls| && s.calls[i].phase == Returned(Ok)
  }

  /** If Close ran to its end, lost nothing, and call i succeeded, its cells are on the wire. */
  ghost predicate Flushes(c: Config, run: seq<Event>, after: seq<Event>, i: nat) {
    var r := Exec(c, run + [CloseBegin] + after);
    r.Some? && r.value.closer.Closed? && r.value.lost == 0 && Succeeded(r.value, i) ==> OnTheWire(r.value, i)
  }

  lemma StrandedIsNotOnTheWire(c: Config, s: State, i: nat, p: seq<byte>)
    requires PacedTheorems.Inv(c, s) && Stranded(s, i, p)
    ensures !OnTheWire(s, i)
  {
    NothingLost(c, s);
    assert CallOrder(s, i);
    var n := s.head;
    assert |Sources(s.log)| == n && |s.enq| == n + 1;
    assert s.enq == s.enq[..n] + [s.enq[n]] && s.enq[n] == s.queue[0];
    ItemsOfSnoc(s.enq[..n], s.enq[n], i);
  }

  lemma ReturnedIsFlushed(c: Config, run: seq<Event>, after: seq<Event>, i: nat)
    requires c.Valid() && Exec(c, run).Some? && !Exec(c, run).value.done
    requires i < |Exec(c, run).value.calls| && Exec(c, run).value.calls[i].phase.Returned?
    ensures Flushes(c, run, after, i)
  {
    var r := Exec(c, run + [CloseBegin] + after);
    if r.Some? && r.value.closer.Closed? && r.value.lost == 0 {
      assert run + [CloseBegin] + after == run + ([CloseBegin] + after);
      RunLater(c, run, [CloseBegin] + after);
      if r.value.calls[i].phase == Returned(Ok) {
        FlushOnClose(c, run, after, i);
      }
    }
  }

  /**
   * When Close begins without a base error so far, a Write is certain to have its cells
   * flushed, if it succeeds, exactly when it has returned by then.
   */
  lemma FlushedExactly(c: Config, run: seq<Event>, i: nat)
    requires c.Valid() && Exec(c, run).Some? && !Exec(c, run).value.failed && !Exec(c, run).value.done
    requires i < |Exec(c, run).value.calls|
    ensures Exec(c, run).value.calls[i].phase.Returned? <==> forall after :: Flushes(c, run, after, i)
  {
    if Exec(c, run).value.calls[i].phase.Returned? {
      forall after
        ensures Flushes(c, run, after, i)
      {
        ReturnedIsFlushed(c, run, after, i);
      }
    } else {
      var after := LateSuccessIsStranded(c, run, i);
      PacedTheorems.RunInv(c, run + [CloseBegin] + after);
      StrandedIsNotOnTheWire(c, Exec(c, run + [CloseBegin] + after).value, i, Exec(c, run).value.calls[i].p);
      assert !Flushes(c, run, after, i);
    }
  }

  // ---------- a Write that begins after Close ----------

  /** What is in the channel of a closed connection stays there, and the wire is as it is. */
  ghost predicate Settled(s: State, t: State) {
    && t.closer.Closed? && (t.pacer.Dead? || t.pacer.Stopped?) && s.queue <= t.queue && s.enq <= t.enq
    && t.head == s.head && t.log == s.log && t.wire == s.wire
    && |s.calls| <= |t.calls| && (forall i :: 0 <= i < |s.calls| ==> t.calls[i].cells == s.calls[i].cells)
  }

  lemma SettledStep(c: Config, s: State, e: Event)
    requires s.closer.Closed? && s.done && (s.pacer.Dead? || s.pacer.Stopped?) && Enabled(c, s, e)
    ensures Settled(s, Apply(c, s, e)) && Apply(c, s, e).done
  {
  }

  lemma {:induction false} ClosedForGood(c: Config, s: State, more: seq<Event>)
    requires CloserInv(s) && s.closer.Closed? && From(c, s, more).Some?
    ensures Settled(s, From(c, s, more).value)
    decreases |more|
  {
    if more != [] {
      SettledStep(c, s, more[0]);
      CloserStep(c, s, more[0]);
      ClosedForGood(c, Apply(c, s, more[0]), more[1..]);
    }
  }

  /** With room for them all, a Write enqueues all its cells. */
  lemma {:induction false} SendAll(c: Config, s: State, i: nat) returns (more: seq<Event>, t: State)
    requires At(s, i, Sending) && s.calls[i].sent < |s.calls[i].cells| == |s.calls[i].ds|
    requires |s.queue| + Unsent(s.calls[i]) <= c.pace.queue
    ensures From(c, s, more) == Some(t) && Succeeded(t, i)
    decreases Unsent(s.calls[i])
  {
    var u := Apply(c, s, Send(i));
    if Succeeded(u, i) {
      more, t := [], u;
    } else {
      more, t := SendAll(c, u, i);
    }
    Goes(c, s, Send(i), u, more, t);
    more := [Send(i)] + more;
  }

  /** From the start of a Write to its first enqueue. */
  lemma {:induction false} Starts(c: Config, s: State, i: nat) returns (more: seq<Event>, t: State)
    requires i < |s.calls| && !s.calls[i].phase.Returned? && s.paceErr.None?
    ensures From(c, s, more) == Some(t) && At(t, i, Sending) && t.queue == s.queue
    ensures t.calls[i] == s.calls[i].(phase := Sending)
    decreases PhaseRank(s.calls[i].phase)
  {
    if s.calls[i].phase.Sending? {
      more, t := [], s;
    } else {
      var e := match s.calls[i].phase
               case Entered => Check(i)
               case Checked => Look(i)
               case _ => ResetSurge(i);
      var u := Apply(c, s, e);
      more, t := Starts(c, u, i);
      Goes(c, s, e, u, more, t);
      more := [e] + more;
    }
  }

  lemma {:induction false} ItemsOfLength(a: seq<Item>, b: seq<Item>, i: nat)
    requires ItemsOf(a, i) == []
    ensures |ItemsOf(a + b, i)| <= |b|
  {
    if b == [] {
      assert a + b == a;
    } else {
      var n := |b| - 1;
      ItemsOfLength(a, b[..n], i);
      assert a + b == a + b[..n] + [b[n]];
      ItemsOfSnoc(a + b[..n], b[n], i);
    }
  }

  /** Call i succeeds at the end of these steps. */
  ghost predicate Succeeds(c: Config, s: State, more: seq<Event>, i: nat) {
    From(c, s, more).Some? && Succeeded(From(c, s, more).value, i)
  }

  /**
   * A Write that begins on a closed connection that saw no base error can report success
   * exactly when its cells all fit into what room the channel has left; they stay there, and
   * the wire never changes again.
   */
  lemma WriteAfterCloseExactly(c: Config, run: seq<Event>, p: seq<byte>, cells: seq<seq<byte>>, ds: seq<seq<byte>>)
    requires c.Valid() && Exec(c, run).Some? && Exec(c, run).value.closer.Closed? && Exec(c, run).value.paceErr.None?
    requires p != [] && Enabled(c, Exec(c, run).value, Write(p, cells, ds))
    ensures var s := Exec(c, run).value;
            var u := Apply(c, s, Write(p, cells, ds));
            && ((exists more :: Succeeds(c, u, more, |s.calls|)) <==> |s.queue| + |cells| <= c.pace.queue)
            && (forall more :: From(c, u, more).Some? ==> Settled(s, From(c, u, more).value))
  {
    var s := Exec(c, run).value;
    var u := Apply(c, s, Write(p, cells, ds));
    PacedTheorems.RunInv(c, run);
    PacedTheorems.Step(c, s, Write(p, cells, ds));
    ExecSnoc(c, run, Write(p, cells, ds));
    if |s.queue| + |cells| <= c.pace.queue {
      var more := FitsAndSucceeds(c, u, |s.calls|);
    }
    forall more | From(c, u, more).Some?
      ensures Settled(s, From(c, u, more).value)
      ensures Succeeds(c, u, more, |s.calls|) ==> |s.queue| + |cells| <= c.pace.queue
    {
      SettledStep(c, s, Write(p, cells, ds));
      ClosedForGood(c, u, more);
      SettledOn(s, u, From(c, u, more).value);
      if Succeeds(c, u, more, |s.calls|) {
        ExecFrom(c, run + [Write(p, cells, ds)], more);
        PacedTheorems.RunInv(c, run + [Write(p, cells, ds)] + more);
        SucceededFits(c, s, From(c, u, more).value, cells);
      }
    }
  }

  lemma SettledOn(s: State, u: State, t: State)
    requires Settled(s, u) && Settled(u, t)
    ensures Settled(s, t)
  {
  }

  lemma FitsAndSucceeds(c: Config, u: State, i: nat) returns (more: seq<Event>)
    requires CallsInv(u) && u.paceErr.None? && At(u, i, Entered) && |u.queue| + |u.calls[i].cells| <= c.pace.queue
    ensures Succeeds(c, u, more, i)
  {
    assert CallOrder(u, i);
    var a, v := Starts(c, u, i);
    var b, t := SendAll(c, v, i);
    Joined(c, u, a, v, b);
    more := a + b;
  }

  lemma SucceededFits(c: Config, s: State, t: State, cells: seq<seq<byte>>)
    requires PacedTheorems.Inv(c, s) && PacedTheorems.Inv(c, t) && Settled(s, t)
    requires |t.calls| > |s.calls| && t.calls[|s.calls|].cells == cells && Succeeded(t, |s.calls|)
    ensures |s.queue| + |cells| <= c.pace.queue
  {
    var i := |s.calls|;
    assert CallOrder(t, i);
    NoItems(s.enq, i);
    assert t.enq == s.enq + t.enq[|s.enq|..];
    ItemsOfLength(s.enq, t.enq[|s.enq|..], i);
  }
}
