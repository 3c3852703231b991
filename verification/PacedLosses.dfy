/** When a base error makes the wire of the paced shaper skip cells, and when it does not. */
module PacedLosses {
  import opened Bytes
  import opened Framing
  import opened PacedShaper
  import opened PacedTheorems

  /**
   * The first data cell lost was the next one due: up to then the wire had the cells before
   * it, and every data cell written later comes from behind it.
   */
  ghost predicate LossInv(s: State) {
    && (s.lostAt.Some? <==> s.lost > 0)
    && (s.lostAt.Some? ==> s.lostAt.value <= |s.log| && SplitAt(s, s.lostAt.value, |Sources(s.log[..s.lostAt.value])|))
  }

  /** The log up to m has the first d cells, and the d-th itself never makes it. */
  ghost predicate SplitAt(s: State, m: nat, d: nat)
    requires m <= |s.log|
  {
    && Sequential(s.log[..m])
    && d + 1 + InHand(s) <= s.head
    && (forall k :: m <= k < |s.log| && s.log[k].src.Some? ==> s.log[k].src.value > d)
  }

  lemma FirstLoss(c: Config, s: State, e: Event)
    requires PacedTheorems.Inv(c, s) && LossInv(s) && Enabled(c, s, e) && (e.WriteErr? || e.FlushErr?)
    requires s.lost == 0 && Apply(c, s, e).lost > 0
    ensures LossInv(Apply(c, s, e))
  {
    NothingLost(c, s);
    assert s.log[..|s.log|] == s.log;
  }

  lemma LossKept(s: State, s': State)
    requires LossInv(s) && s'.lostAt == s.lostAt && (s'.lost > 0 <==> s.lost > 0)
    requires s'.head - InHand(s') >= s.head - InHand(s)
    requires s'.log == s.log || (|s'.log| == |s.log| + 1 && s'.log[..|s.log|] == s.log
               && (s'.log[|s.log|].src.Some? ==> InHand(s) == 1 && s'.log[|s.log|].src.value + 1 == s.head))
    ensures LossInv(s')
  {
    if s.lostAt.Some? {
      var m := s.lostAt.value;
      assert s'.log[..m] == s'.log[..|s.log|][..m] == s.log[..m];
    }
  }

  lemma LossQuiet(c: Config, s: State, e: Event)
    requires LossInv(s) && CloserInv(s) && Enabled(c, s, e) && Quiet(s, e)
    ensures LossInv(Apply(c, s, e))
  {
    QuietLeavesCells(c, s, e);
    LossKept(s, Apply(c, s, e));
  }

  lemma LossMoved(c: Config, s: State, e: Event)
    requires LossInv(s) && OrderInv(s) && CloserInv(s) && Enabled(c, s, e)
    requires !Quiet(s, e) && !e.WriteErr? && !e.FlushErr?
    ensures LossInv(Apply(c, s, e))
  {
    LossKept(s, Apply(c, s, e));
  }

  lemma LossAgain(c: Config, s: State, e: Event)
    requires LossInv(s) && OrderInv(s) && CloserInv(s) && Enabled(c, s, e) && (e.WriteErr? || e.FlushErr?)
    requires s.lost > 0 || Apply(c, s, e).lost == 0
    ensures LossInv(Apply(c, s, e))
  {
    LossKept(s, Apply(c, s, e));
  }

  lemma LossStep(c: Config, s: State, e: Event)
    requires PacedTheorems.Inv(c, s) && LossInv(s) && Enabled(c, s, e)
    ensures LossInv(Apply(c, s, e))
  {
    if Quiet(s, e) {
      LossQuiet(c, s, e);
    } else if !e.WriteErr? && !e.FlushErr? {
      LossMoved(c, s, e);
    } else if s.lost == 0 && Apply(c, s, e).lost > 0 {
      FirstLoss(c, s, e);
    } else {
      LossAgain(c, s, e);
    }
  }

  lemma {:induction false} RunLosses(c: Config, run: seq<Event>)
    requires c.Valid() && Exec(c, run).Some?
    ensures LossInv(Exec(c, run).value)
  {
    if run != [] {
      RunLosses(c, run[..|run| - 1]);
      PacedTheorems.RunInv(c, run[..|run| - 1]);
      LossStep(c, Exec(c, run[..|run| - 1]).value, run[|run| - 1]);
    }
  }

  /** Some data cell went out after one had been lost. */
  ghost predicate DataAfterLoss(s: State) {
    s.lostAt.Some? && exists k :: s.lostAt.value <= k < |s.log| && s.log[k].src.Some?
  }

  lemma {:induction false} SourcesConcat(a: seq<Entry>, b: seq<Entry>)
    ensures Sources(a + b) == Sources(a) + Sources(b)
  {
    if b == [] {
      assert a + b == a;
    } else {
      var (init, last) := (b[..|b| - 1], b[|b| - 1]);
      SourcesConcat(a, init);
      assert b == init + [last] && a + b == (a + init) + [last];
      SourcesSnoc(a + init, last);
      SourcesSnoc(init, last);
    }
  }

  lemma {:induction false} SourcesOf(log: seq<Entry>)
    ensures Sources(log) == [] <==> forall k :: 0 <= k < |log| ==> log[k].src.None?
    ensures forall j :: 0 <= j < |Sources(log)| ==>
              exists k :: 0 <= k < |log| && log[k].src == Some(Sources(log)[j])
  {
    if log != [] {
      var (n, init) := (|log| - 1, log[..|log| - 1]);
      SourcesOf(init);
      forall j | 0 <= j < |Sources(log)|
        ensures exists k :: 0 <= k < |log| && log[k].src == Some(Sources(log)[j])
      {
        if j < |Sources(init)| {
          var k :| 0 <= k < n && init[k].src == Some(Sources(init)[j]);
          assert log[k].src == Some(Sources(log)[j]);
        } else {
          assert log[n].src == Some(Sources(log)[j]);
        }
      }
    }
  }

  /**
   * In every run, base errors included: the data cells written whole are the first ones
   * enqueued if and only if none was written after the write of one had failed. Failing to
   * write a cover cell, or the last cell, skips nothing.
   */
  lemma SkipsExactly(c: Config, run: seq<Event>)
    requires c.Valid() && Exec(c, run).Some?
    ensures var s := Exec(c, run).value;
            var n := |Sources(s.log)|;
            && n <= |s.enq|
            && (Sequential(s.log) <==> !DataAfterLoss(s))
            && (!DataAfterLoss(s) ==>
                  LogCells(DataEntries(s.log)) == ItemCells(s.enq[..n])
                  && Datas(DataEntries(s.log)) == ItemDatas(s.enq[..n]))
  {
    RunLosses(c, run);
    PacedTheorems.RunInv(c, run);
    var s := Exec(c, run).value;
    if s.lostAt.None? {
      NothingLost(c, s);
    } else {
      SplitExactly(s);
    }
    if Sequential(s.log) {
      SequentialData(c, s);
    }
  }

  lemma SplitExactly(s: State)
    requires LossInv(s) && s.lostAt.Some?
    ensures Sequential(s.log) <==> !DataAfterLoss(s)
  {
    var m := s.lostAt.value;
    var (a, b) := (s.log[..m], s.log[m..]);
    assert s.log == a + b;
    SourcesConcat(a, b);
    if DataAfterLoss(s) {
      JumpAt(s, m);
    } else {
      SourcesOf(b);
      assert forall i :: 0 <= i < |b| ==> b[i] == s.log[m + i];
    }
  }

  /** The first data cell written from m on is not the next in order. */
  lemma JumpAt(s: State, m: nat)
    requires m <= |s.log| && SplitAt(s, m, |Sources(s.log[..m])|)
    requires exists k :: m <= k < |s.log| && s.log[k].src.Some?
    ensures !Sequential(s.log)
  {
    var (a, b) := (s.log[..m], s.log[m..]);
    assert s.log == a + b;
    SourcesConcat(a, b);
    SourcesOf(b);
    var k :| m <= k < |s.log| && s.log[k].src.Some?;
    assert b[k - m].src.Some?;
    var i :| 0 <= i < |b| && b[i].src == Some(Sources(b)[0]);
    assert s.log[m + i].src.value > |Sources(a)|;
    assert Sources(s.log)[|Sources(a)|] == Sources(b)[0];
  }
}
