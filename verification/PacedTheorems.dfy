/** What holds in every run of the paced shaper: conservation, order, flush and failure. */
module PacedTheorems {
  import opened Bytes
  import opened Framing
  import opened PacedShaper

  ghost predicate Inv(c: Config, s: State) {
    && CellsInv(c, s) && QueueInv(c, s) && EntryInv(c, s) && CloserInv(s)
    && OrderInv(s) && FailInv(s) && CallsInv(s)
  }

  lemma Step(c: Config, s: State, e: Event)
    requires Inv(c, s) && Enabled(c, s, e)
    ensures Inv(c, Apply(c, s, e))
  {
    CellsStep(c, s, e);
    QueueStep(c, s, e);
    EntryStep(c, s, e);
    CloserStep(c, s, e);
    OrderStep(c, s, e);
    FailStep(c, s, e);
    CallsStep(c, s, e);
  }

  lemma {:induction false} RunInv(c: Config, run: seq<Event>)
    requires c.Valid()
    ensures Exec(c, run).Some? ==> Inv(c, Exec(c, run).value)
  {
    if run != [] && Exec(c, run).Some? {
      RunInv(c, run[..|run| - 1]);
      Step(c, Exec(c, run[..|run| - 1]).value, run[|run| - 1]);
    }
  }

  // ---------- conservation ----------

  /** The writes of data cells, cover left out. */
  function DataEntries(log: seq<Entry>): seq<Entry> {
    if log == [] then []
    else
      var last := log[|log| - 1];
      DataEntries(log[..|log| - 1]) + (if last.src.Some? then [last] else [])
  }

  function LogCells(log: seq<Entry>): seq<seq<byte>> {
    seq(|log|, i requires 0 <= i < |log| => log[i].cell)
  }

  function ItemCells(items: seq<Item>): seq<seq<byte>> {
    seq(|items|, i requires 0 <= i < |items| => items[i].cell)
  }

  function HandCells(s: State): seq<seq<byte>> {
    if InHand(s) == 1 then [Hand(s).value.cell] else []
  }

  lemma {:induction false} IncreasingFillsUp(ks: seq<nat>)
    requires forall i, j :: 0 <= i < j < |ks| ==> ks[i] < ks[j]
    requires forall i :: 0 <= i < |ks| ==> ks[i] < |ks|
    ensures forall i :: 0 <= i < |ks| ==> ks[i] == i
  {
    if ks != [] {
      var n := |ks| - 1;
      forall i | 0 <= i < n
        ensures ks[..n][i] < n
      {
        assert ks[i] < ks[n] < |ks|;
      }
      IncreasingFillsUp(ks[..n]);
      assert forall i :: 0 <= i < n ==> ks[i] == ks[..n][i] == i;
      if n > 0 {
        assert ks[n - 1] < ks[n];
      }
    }
  }

  ghost predicate LogOk(c: Config, enq: seq<Item>, log: seq<Entry>) {
    forall k :: 0 <= k < |log| ==> EntryOk(c, enq, log[k])
  }

  lemma {:induction false} DataEntriesAt(c: Config, enq: seq<Item>, log: seq<Entry>)
    requires LogOk(c, enq, log)
    ensures |DataEntries(log)| == |Sources(log)| && LogOk(c, enq, DataEntries(log))
    ensures forall j :: 0 <= j < |Sources(log)| ==> DataEntries(log)[j].src == Some(Sources(log)[j])
  {
    if log != [] {
      DataEntriesAt(c, enq, log[..|log| - 1]);
      assert EntryOk(c, enq, log[|log| - 1]);
    }
  }

  /** The data cells on the wire are the first ones enqueued, none skipped. */
  ghost predicate Sequential(log: seq<Entry>) {
    forall j :: 0 <= j < |Sources(log)| ==> Sources(log)[j] == j
  }

  lemma SequentialData(c: Config, s: State)
    requires Inv(c, s) && Sequential(s.log)
    ensures var n := |Sources(s.log)|;
            && n <= s.head <= |s.enq|
            && LogCells(DataEntries(s.log)) == ItemCells(s.enq[..n])
            && Datas(DataEntries(s.log)) == ItemDatas(s.enq[..n])
  {
    var es := DataEntries(s.log);
    DataEntriesAt(c, s.enq, s.log);
    forall j | 0 <= j < |es|
      ensures es[j].cell == s.enq[j].cell && es[j].data == s.enq[j].data
    {
      assert EntryOk(c, s.enq, es[j]) && Sources(s.log)[j] == j;
    }
  }

  /** While no data cell was lost none is skipped, and only the one in hand is missing. */
  lemma NothingLost(c: Config, s: State)
    requires Inv(c, s) && s.lost == 0
    ensures Sequential(s.log) && |Sources(s.log)| + InHand(s) == s.head
  {
    IncreasingFillsUp(Sources(s.log));
  }

  lemma ItemCellsSplit(enq: seq<Item>, n: nat, h: nat)
    requires n <= h <= |enq|
    ensures ItemCells(enq[..n]) + ItemCells(enq[n..h]) + ItemCells(enq[h..]) == ItemCells(enq)
  {
  }

  /**
   * In every reachable state that lost no data cell to a base error (a cover cell may have
   * been lost): the data cells on the wire, then the cell in hand, then the queue are all the
   * enqueued cells in enqueue order, and the queue is within its bound.
   */
  lemma Conservation(c: Config, run: seq<Event>)
    requires c.Valid() && Exec(c, run).Some? && Exec(c, run).value.lost == 0
    ensures var s := Exec(c, run).value;
            && LogCells(DataEntries(s.log)) + HandCells(s) + ItemCells(s.queue) == ItemCells(s.enq)
            && |s.queue| <= c.pace.queue
  {
    RunInv(c, run);
    Conserved(c, Exec(c, run).value);
  }

  lemma HandIsNext(c: Config, s: State, n: nat)
    requires Inv(c, s) && n + InHand(s) == s.head
    ensures HandCells(s) == ItemCells(s.enq[n..s.head])
  {
    if InHand(s) == 1 {
      assert EntryOk(c, s.enq, Hand(s).value);
    }
  }

  lemma Conserved(c: Config, s: State)
    requires Inv(c, s) && s.lost == 0
    ensures LogCells(DataEntries(s.log)) + HandCells(s) + ItemCells(s.queue) == ItemCells(s.enq)
  {
    NothingLost(c, s);
    SequentialData(c, s);
    var n := |Sources(s.log)|;
    HandIsNext(c, s, n);
    ItemCellsSplit(s.enq, n, s.head);
  }

  /**
   * In every reachable state, base errors included: data cells reach the wire at most once
   * and in enqueue order, and at most two dequeued cells are missing from it.
   */
  lemma NeverReordered(c: Config, run: seq<Event>)
    requires c.Valid() && Exec(c, run).Some?
    ensures var s := Exec(c, run).value;
            && (forall j, k :: 0 <= j < k < |Sources(s.log)| ==> Sources(s.log)[j] < Sources(s.log)[k])
            && |Sources(s.log)| + InHand(s) + |s.queue| <= |s.enq| <= |Sources(s.log)| + InHand(s) + |s.queue| + 2
  {
    RunInv(c, run);
  }

  // ---------- the order of enqueuing ----------

  /**
   * The enqueue order is a merge of the Writes at cell granularity: what one call put in is
   * the first cells of its own framing in order, all of them once it reported success, and
   * every item belongs to some call.
   */
  lemma WritesKeepOrder(c: Config, run: seq<Event>, i: nat)
    requires c.Valid() && Exec(c, run).Some? && i < |Exec(c, run).value.calls|
    ensures var s := Exec(c, run).value;
            var k := s.calls[i];
            && k.sent <= |k.cells| == |k.ds| && Flatten(k.ds) == k.p
            && ItemsOf(s.enq, i) == CallItems(i, k, k.sent)
            && (k.phase == Returned(Ok) ==> k.sent == |k.cells|)
            && (forall j :: 0 <= j < |s.enq| ==> s.enq[j].call < |s.calls|)
  {
    RunInv(c, run);
    var s := Exec(c, run).value;
    assert CallOrder(s, i);
    assert CallCells(c, s.calls[i]);
  }

  // ---------- one writer at a time ----------

  /** What the calls have enqueued, call after call. */
  function InCallOrder(calls: seq<Call>): seq<Item>
    requires forall i :: 0 <= i < |calls| ==> calls[i].sent <= |calls[i].cells| == |calls[i].ds|
  {
    if calls == [] then []
    else
      var n := |calls| - 1;
      InCallOrder(calls[..n]) + CallItems(n, calls[n], calls[n].sent)
  }

  ghost predicate CallsSized(calls: seq<Call>) {
    forall i :: 0 <= i < |calls| ==> calls[i].sent <= |calls[i].cells| == |calls[i].ds|
  }

  ghost predicate SingleInv(s: State) {
    && CallsSized(s.calls)
    && (forall i :: 0 <= i < |s.calls| - 1 ==> s.calls[i].phase.Returned?)
    && s.enq == InCallOrder(s.calls)
  }

  lemma {:induction false} SameItems(a: seq<Call>, b: seq<Call>)
    requires CallsSized(a) && CallsSized(b) && |a| == |b|
    requires forall i :: 0 <= i < |a| ==> b[i] == a[i].(phase := b[i].phase)
    ensures InCallOrder(a) == InCallOrder(b)
  {
    if a != [] {
      var n := |a| - 1;
      SameItems(a[..n], b[..n]);
      assert CallItems(n, a[n], a[n].sent) == CallItems(n, b[n], b[n].sent);
    }
  }

  lemma SingleSend(c: Config, s: State, i: nat)
    requires SingleInv(s) && CallsInv(s) && Enabled(c, s, Send(i))
    ensures SingleInv(Apply(c, s, Send(i)))
  {
    var s' := Apply(c, s, Send(i));
    var n := |s.calls| - 1;
    assert i == n;
    assert s'.calls[..n] == s.calls[..n];
    assert CallItems(n, s'.calls[n], s'.calls[n].sent)
        == CallItems(n, s.calls[n], s.calls[n].sent) + [s'.enq[|s.enq|]];
  }

  lemma SingleWrite(c: Config, s: State, e: Event)
    requires c.single && SingleInv(s) && Enabled(c, s, e) && e.Write?
    ensures SingleInv(Apply(c, s, e))
  {
    var s' := Apply(c, s, e);
    assert s'.calls[..|s.calls|] == s.calls;
    assert CallItems(|s.calls|, s'.calls[|s.calls|], 0) == [];
  }

  lemma SingleStep(c: Config, s: State, e: Event)
    requires c.single && SingleInv(s) && CallsInv(s) && Enabled(c, s, e)
    ensures SingleInv(Apply(c, s, e))
  {
    if e.Send? {
      SingleSend(c, s, e.i);
    } else if e.Write? {
      SingleWrite(c, s, e);
    } else if CallEvent(e) {
      SingleMoved(c, s, e);
    } else {
      var s' := Apply(c, s, e);
      assert s'.calls == s.calls && s'.enq == s.enq;
    }
  }

  lemma SingleMoved(c: Config, s: State, e: Event)
    requires SingleInv(s) && Enabled(c, s, e) && CallEvent(e) && !e.Send? && !e.Write?
    ensures SingleInv(Apply(c, s, e))
  {
    var s' := Apply(c, s, e);
    assert |s'.calls| == |s.calls| && s'.enq == s.enq;
    assert forall i :: 0 <= i < |s.calls| ==> s'.calls[i] == s.calls[i].(phase := s'.calls[i].phase);
    SameItems(s.calls, s'.calls);
  }

  lemma {:induction false} SingleRun(c: Config, run: seq<Event>)
    requires c.Valid() && c.single && Exec(c, run).Some?
    ensures SingleInv(Exec(c, run).value)
  {
    if run != [] {
      SingleRun(c, run[..|run| - 1]);
      RunInv(c, run[..|run| - 1]);
      SingleStep(c, Exec(c, run[..|run| - 1]).value, run[|run| - 1]);
    }
  }

  /** The payload a call has enqueued so far. */
  function SentPayloads(calls: seq<Call>): seq<seq<byte>>
    requires forall i :: 0 <= i < |calls| ==> calls[i].sent <= |calls[i].cells| == |calls[i].ds|
  {
    seq(|calls|, i requires 0 <= i < |calls| => Flatten(calls[i].ds[..calls[i].sent]))
  }

  lemma {:induction false} InCallOrderDatas(calls: seq<Call>)
    requires CallsSized(calls)
    ensures Flatten(ItemDatas(InCallOrder(calls))) == Flatten(SentPayloads(calls))
  {
    if calls != [] {
      var n := |calls| - 1;
      var k := calls[n];
      InCallOrderDatas(calls[..n]);
      var mine := CallItems(n, k, k.sent);
      assert ItemDatas(InCallOrder(calls)) == ItemDatas(InCallOrder(calls[..n])) + ItemDatas(mine);
      FlattenAppend(ItemDatas(InCallOrder(calls[..n])), ItemDatas(mine));
      assert ItemDatas(mine) == k.ds[..k.sent];
      assert SentPayloads(calls) == SentPayloads(calls[..n]) + [Flatten(k.ds[..k.sent])];
      FlattenSnoc(SentPayloads(calls[..n]), Flatten(k.ds[..k.sent]));
    }
  }

  /**
   * With one Write at a time the stream enqueued is the exact concatenation of the calls'
   * payloads, a successful call contributing all of its own.
   */
  lemma SingleWriterStream(c: Config, run: seq<Event>)
    requires c.Valid() && c.single && Exec(c, run).Some?
    ensures var s := Exec(c, run).value;
            && CallsSized(s.calls)
            && Flatten(ItemDatas(s.enq)) == Flatten(SentPayloads(s.calls))
            && (forall i :: 0 <= i < |s.calls| && s.calls[i].phase == Returned(Ok) ==>
                  SentPayloads(s.calls)[i] == s.calls[i].p)
  {
    RunInv(c, run);
    SingleRun(c, run);
    var s := Exec(c, run).value;
    InCallOrderDatas(s.calls);
    forall i | 0 <= i < |s.calls| && s.calls[i].phase == Returned(Ok)
      ensures SentPayloads(s.calls)[i] == s.calls[i].p
    {
      assert CallOrder(s, i) && CallCells(c, s.calls[i]);
      assert s.calls[i].ds[..s.calls[i].sent] == s.calls[i].ds;
    }
  }

  // ---------- what later states keep ----------

  /** What no step undoes. */
  ghost predicate Later(s: State, s': State) {
    && s.enq <= s'.enq
    && |s.calls| <= |s'.calls|
    && (forall i :: 0 <= i < |s.calls| && s.calls[i].phase.Returned? ==> s'.calls[i] == s.calls[i])
    && (s.done ==> s'.done && s'.closeMark == s.closeMark)
    && (s.paceErr.Some? ==> s'.paceErr == s.paceErr)
    && (s.firstErr.Some? ==> s'.firstErr == s.firstErr)
    && (s.paceDead ==> s'.paceDead)
  }

  lemma CallLater(c: Config, s: State, e: Event)
    requires Enabled(c, s, e) && CallEvent(e)
    ensures Later(s, Apply(c, s, e))
  {
  }

  lemma StepLater(c: Config, s: State, e: Event)
    requires FailInv(s) && Enabled(c, s, e)
    ensures Later(s, Apply(c, s, e))
  {
    if CallEvent(e) {
      CallLater(c, s, e);
    } else {
      assert Apply(c, s, e).calls == s.calls && Apply(c, s, e).enq == s.enq;
    }
  }

  lemma {:induction false} RunLater(c: Config, run: seq<Event>, more: seq<Event>)
    requires c.Valid() && Exec(c, run + more).Some?
    ensures Exec(c, run).Some? && Later(Exec(c, run).value, Exec(c, run + more).value)
  {
    if more == [] {
      assert run + more == run;
    } else {
      var n := |more| - 1;
      var mid := run + more[..n];
      assert (run + more)[..|run + more| - 1] == mid;
      assert (run + more)[|run + more| - 1] == more[n];
      RunLater(c, run, more[..n]);
      RunInv(c, mid);
      StepLater(c, Exec(c, mid).value, more[n]);
      LaterTransitive(Exec(c, run).value, Exec(c, mid).value, Exec(c, run + more).value);
    }
  }

  lemma LaterTransitive(a: State, b: State, d: State)
    requires Later(a, b) && Later(b, d)
    ensures Later(a, d)
  {
    forall i | 0 <= i < |a.calls| && a.calls[i].phase.Returned?
      ensures d.calls[i] == a.calls[i]
    {
      assert b.calls[i] == a.calls[i];
    }
  }

  // ---------- flush on close ----------

  /** Once Close has flushed and lost no data cell, it is past everything enqueued before it began. */
  ghost predicate MarkInv(s: State) {
    && s.closeMark <= |s.enq|
    && ((s.closer.Flushed? || s.closer.Closed?) && s.lost == 0 ==> s.closeMark <= s.head)
  }

  lemma {:induction false} RunMark(c: Config, run: seq<Event>)
    requires c.Valid() && Exec(c, run).Some?
    ensures MarkInv(Exec(c, run).value)
  {
    if run != [] {
      RunMark(c, run[..|run| - 1]);
      RunInv(c, run[..|run| - 1]);
      MarkStep(c, Exec(c, run[..|run| - 1]).value, run[|run| - 1]);
    }
  }

  lemma MarkStep(c: Config, s: State, e: Event)
    requires MarkInv(s) && QueueInv(c, s) && CloserInv(s) && Enabled(c, s, e)
    ensures MarkInv(Apply(c, s, e))
  {
  }

  lemma {:induction false} ItemsOfPrefix(enq: seq<Item>, more: seq<Item>, i: nat)
    ensures ItemsOf(enq, i) <= ItemsOf(enq + more, i)
  {
    if more == [] {
      assert enq + more == enq;
    } else {
      var n := |more| - 1;
      ItemsOfPrefix(enq, more[..n], i);
      assert enq + more == enq + more[..n] + [more[n]];
      ItemsOfSnoc(enq + more[..n], more[n], i);
    }
  }

  lemma ItemsBetween(a: seq<Item>, b: seq<Item>, d: seq<Item>, i: nat)
    requires a <= b <= d && ItemsOf(a, i) == ItemsOf(d, i)
    ensures ItemsOf(b, i) == ItemsOf(a, i)
  {
    ItemsOfPrefix(a, b[|a|..], i);
    ItemsOfPrefix(b, d[|b|..], i);
    assert a + b[|a|..] == b && b + d[|b|..] == d;
  }

  /**
   * In every run that lost no data cell: once Close has closed the base, each Write that had
   * reported success before Close began has all its cells on the wire, once each and in
   * order, whatever the pacer was doing then.
   */
  lemma FlushOnClose(c: Config, before: seq<Event>, after: seq<Event>, i: nat)
    requires c.Valid() && Exec(c, before + [CloseBegin] + after).Some?
    requires var s := Exec(c, before + [CloseBegin] + after).value; s.closer.Closed? && s.lost == 0
    requires Exec(c, before).Some? && i < |Exec(c, before).value.calls|
    requires Exec(c, before).value.calls[i].phase == Returned(Ok)
    ensures var k := Exec(c, before).value.calls[i];
            var s := Exec(c, before + [CloseBegin] + after).value;
            var n := |Sources(s.log)|;
            && n <= |s.enq| && |k.ds| == |k.cells| && Flatten(k.ds) == k.p
            && LogCells(DataEntries(s.log)) == ItemCells(s.enq[..n])
            && ItemsOf(s.enq[..n], i) == CallItems(i, k, |k.cells|)
  {
    var run := before + [CloseBegin];
    assert run[..|run| - 1] == before;
    RunLater(c, run, after);
    RunInv(c, before);
    RunInv(c, run + after);
    RunMark(c, run + after);
    var (s, s') := (Exec(c, before).value, Exec(c, run + after).value);
    CloseRemembers(c, s, Exec(c, run).value, s', i);
    NothingLost(c, s');
    SequentialData(c, s');
    assert Hand(s').None?;
    var n := |Sources(s'.log)|;
    assert s.enq <= s'.enq[..n];
    assert CallOrder(s, i) && CallOrder(s', i) && CallCells(c, s.calls[i]);
    ItemsBetween(s.enq, s'.enq[..n], s'.enq, i);
  }

  lemma CloseRemembers(c: Config, s: State, t: State, s': State, i: nat)
    requires Enabled(c, s, CloseBegin) && t == Apply(c, s, CloseBegin) && Later(t, s')
    requires i < |s.calls| && s.calls[i].phase.Returned?
    ensures s.enq <= s'.enq && s'.closeMark == |s.enq| && i < |s'.calls| && s'.calls[i] == s.calls[i]
  {
    assert t.calls[i] == s.calls[i];
  }

  lemma ExecSnoc(c: Config, run: seq<Event>, e: Event)
    requires Exec(c, run).Some? && Enabled(c, Exec(c, run).value, e)
    ensures Exec(c, run + [e]) == Some(Apply(c, Exec(c, run).value, e))
  {
    assert (run + [e])[..|run|] == run;
  }

  // ---------- the failure protocol ----------

  /**
   * Once the pacer has died, the sticky error is its base error, nothing closes paceDead
   * again, every unfinished Write has a step of its own to take, and a Write leaving through
   * paceDead reports that error: its fallback is unreachable.
   */
  lemma DeadPacerUnblocks(c: Config, run: seq<Event>, i: nat)
    requires c.Valid() && Exec(c, run).Some? && Exec(c, run).value.paceDead
    requires i < |Exec(c, run).value.calls| && !Exec(c, run).value.calls[i].phase.Returned?
    ensures var s := Exec(c, run).value;
            && s.firstErr.Some? && s.paceErr == s.firstErr
            && !Enabled(c, s, CloseDead) && !Enabled(c, s, SetErr)
            && (Enabled(c, s, Check(i)) || Enabled(c, s, Look(i)) || Enabled(c, s, ResetSurge(i)) || Enabled(c, s, SendDead(i)))
            && (s.calls[i].phase.Sending? ==>
                  Enabled(c, s, SendDead(i))
                  && Apply(c, s, SendDead(i)).calls[i].phase == Returned(BaseErr(s.firstErr.value)))
  {
    RunInv(c, run);
  }

  /** Once Close has begun, a Write blocked on the queue can leave, and reports a closed connection. */
  lemma ClosingUnblocks(c: Config, run: seq<Event>, i: nat)
    requires c.Valid() && Exec(c, run).Some? && Exec(c, run).value.done
    requires i < |Exec(c, run).value.calls| && Exec(c, run).value.calls[i].phase.Sending?
    ensures var s := Exec(c, run).value;
            Enabled(c, s, SendDone(i)) && Apply(c, s, SendDone(i)).calls[i].phase == Returned(ErrClosed)
            && Apply(c, s, SendDone(i)).queue == s.queue
  {
  }

  /** An error a Write reports is the pacer's base error, or the connection was closing. */
  lemma ErrorsAreHonest(c: Config, run: seq<Event>, i: nat)
    requires c.Valid() && Exec(c, run).Some? && i < |Exec(c, run).value.calls|
    requires Exec(c, run).value.calls[i].phase.Returned?
    ensures var s := Exec(c, run).value;
            match s.calls[i].phase.r
            case Ok => true
            case BaseErr(e) => s.firstErr == Some(e) && s.failed
            case ErrClosed => s.done
  {
    RunInv(c, run);
    assert CallResult(Exec(c, run).value, Exec(c, run).value.calls[i].phase);
  }

  /** The sticky error and the closing of paceDead each happen at most once, in that order. */
  lemma ErrorSetOnceAndFirst(c: Config, run: seq<Event>, more: seq<Event>)
    requires c.Valid() && Exec(c, run + more).Some?
    ensures Exec(c, run).Some?
    ensures var (s, s') := (Exec(c, run).value, Exec(c, run + more).value);
            && (s.paceErr.Some? ==> s'.paceErr == s.paceErr)
            && (s.paceDead ==> s.paceErr.Some? && s'.paceDead)
  {
    RunLater(c, run, more);
    RunInv(c, run);
  }
}
