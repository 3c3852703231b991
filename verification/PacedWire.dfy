/**
 * The bytes of paced mode on the wire, failed base writes included, and what the peer makes
 * of them.
 */
module PacedWire {
  import opened Bytes
  import opened Framing
  import opened CutCells
  import opened PacedShaper
  import opened PacedTheorems
  import opened PacedLosses

  function CellBytes(log: seq<Entry>): seq<byte> {
    Flatten(LogCells(log))
  }

  lemma CellBytesSnoc(log: seq<Entry>, e: Entry)
    ensures CellBytes(log + [e]) == CellBytes(log) + e.cell
  {
    assert LogCells(log + [e]) == LogCells(log) + [e.cell];
    FlattenSnoc(LogCells(log), e.cell);
  }

  /** How many successful writes came before the first failed one. */
  function Before(s: State): (m: nat)
    ensures m <= |s.log|
  {
    if s.cuts == [] then |s.log| else Min(s.cuts[0].at, |s.log|)
  }

  /** What the failed writes left on the wire; an absent one left nothing. */
  function FirstPart(s: State): seq<byte> {
    if s.cuts == [] then [] else s.cuts[0].part
  }

  function LastPart(s: State): seq<byte> {
    if |s.cuts| < 2 then [] else s.cuts[1].part
  }

  /** Every failed write is the pacer's last or the flush's last. */
  function Errors(s: State): nat {
    (if s.firstErr.Some? then 1 else 0) + (if s.closer.Flushed? || s.closer.Closed? then 1 else 0)
  }

  /** The wire, write by write: at most one cell is cut in the middle of it and one at the end. */
  ghost predicate WireInv(s: State) {
    && |s.cuts| <= Errors(s) && (s.failed <==> s.cuts != [])
    && (s.cuts != [] ==> s.cuts[0].at <= |s.log|)
    && s.wire == CellBytes(s.log[..Before(s)]) + FirstPart(s) + CellBytes(s.log[Before(s)..]) + LastPart(s)
    && (s.lostAt.Some? ==> s.cuts != [] && Before(s) <= s.lostAt.value)
  }

  lemma WireWrittenClean(s: State, e: Entry)
    requires WireInv(s) && s.cuts == []
    ensures WireInv(Wrote(s, e))
  {
    var log := Wrote(s, e).log;
    CellBytesSnoc(s.log, e.(time := s.now));
    assert s.log[..|s.log|] == s.log && s.log[|s.log|..] == [];
    assert log[..|log|] == log && log[|log|..] == [];
  }

  lemma WireWritten(s: State, e: Entry)
    requires WireInv(s) && |s.cuts| < 2
    ensures WireInv(Wrote(s, e))
  {
    if s.cuts == [] {
      WireWrittenClean(s, e);
    } else {
      WireWrittenAfter(s, e);
    }
  }

  lemma WireWrittenAfter(s: State, e: Entry)
    requires WireInv(s) && |s.cuts| == 1
    ensures WireInv(Wrote(s, e))
  {
    var (m, s', e') := (Before(s), Wrote(s, e), e.(time := s.now));
    CellBytesSnoc(s.log[m..], e');
    assert s'.log[..m] == s.log[..m];
    assert s'.log[m..] == s.log[m..] + [e'];
    AppendLast(CellBytes(s.log[..m]) + FirstPart(s), CellBytes(s.log[m..]), e.cell);
  }

  lemma AppendLast(a: seq<byte>, b: seq<byte>, d: seq<byte>)
    ensures (a + b + []) + d == a + (b + d) + []
  {
  }

  lemma WireCut(s: State, s': State, part: seq<byte>)
    requires WireInv(s) && |s.cuts| < 2 && s'.log == s.log
    requires s'.failed && s'.cuts == s.cuts + [Cut(|s.log|, part)] && s'.wire == s.wire + part
    requires Errors(s') == Errors(s) + 1
    requires s'.lostAt == s.lostAt || s'.lostAt == Some(|s.log|)
    ensures WireInv(s')
  {
    if s.cuts == [] {
      assert s.log[..|s.log|] == s.log && s.log[|s.log|..] == [];
    }
  }

  lemma WireKept(s: State, s': State)
    requires WireInv(s) && s'.log == s.log && s'.cuts == s.cuts && s'.wire == s.wire
    requires s'.lostAt == s.lostAt && s'.failed == s.failed && Errors(s') >= Errors(s)
    ensures WireInv(s')
  {
  }

  lemma WireQuiet(c: Config, s: State, e: Event)
    requires WireInv(s) && CloserInv(s) && Enabled(c, s, e) && Quiet(s, e)
    ensures WireInv(Apply(c, s, e))
  {
    QuietLeavesCells(c, s, e);
    WireKept(s, Apply(c, s, e));
  }

  lemma WireOk(c: Config, s: State, e: Event)
    requires WireInv(s) && CloserInv(s) && FailInv(s) && Enabled(c, s, e) && (e.WriteOk? || e.FlushOk?)
    ensures WireInv(Apply(c, s, e))
  {
    var entry := if e.WriteOk? then s.pacer.hand else s.closer.item;
    WireWritten(s, entry);
    WireKept(Wrote(s, entry), Apply(c, s, e));
  }

  lemma WireErr(c: Config, s: State, e: Event)
    requires WireInv(s) && CloserInv(s) && FailInv(s) && Enabled(c, s, e) && (e.WriteErr? || e.FlushErr?)
    ensures WireInv(Apply(c, s, e))
  {
    WireCut(s, Apply(c, s, e), e.part);
  }

  lemma TakeLeavesWire(c: Config, s: State, e: Event)
    requires Enabled(c, s, e) && (e.Take? || e.FlushTake?)
    ensures var s' := Apply(c, s, e);
            && s'.log == s.log && s'.cuts == s.cuts && s'.wire == s.wire && s'.lostAt == s.lostAt
            && s'.failed == s.failed && s'.firstErr == s.firstErr
            && (s'.closer.Flushed? || s'.closer.Closed? <==> s.closer.Flushed? || s.closer.Closed?)
  {
  }

  lemma WireStep(c: Config, s: State, e: Event)
    requires CloserInv(s) && FailInv(s) && WireInv(s) && Enabled(c, s, e)
    ensures WireInv(Apply(c, s, e))
  {
    if Quiet(s, e) {
      WireQuiet(c, s, e);
    } else if e.WriteOk? || e.FlushOk? {
      WireOk(c, s, e);
    } else if e.WriteErr? || e.FlushErr? {
      WireErr(c, s, e);
    } else {
      TakeLeavesWire(c, s, e);
      WireKept(s, Apply(c, s, e));
    }
  }

  lemma {:induction false} RunWire(c: Config, run: seq<Event>)
    requires c.Valid() && Exec(c, run).Some?
    ensures WireInv(Exec(c, run).value)
  {
    if run != [] {
      RunWire(c, run[..|run| - 1]);
      PacedTheorems.RunInv(c, run[..|run| - 1]);
      WireStep(c, Exec(c, run[..|run| - 1]).value, run[|run| - 1]);
    }
  }

  // ---------- up to the first failed write ----------

  /** Cover entries carry nothing. */
  lemma {:induction false} CoverIsSilent(log: seq<Entry>)
    requires forall k :: 0 <= k < |log| && log[k].src.None? ==> log[k].data == []
    ensures Flatten(Datas(log)) == Flatten(Datas(DataEntries(log)))
  {
    if log != [] {
      var (init, last) := (log[..|log| - 1], log[|log| - 1]);
      CoverIsSilent(init);
      assert Datas(log) == Datas(init) + [last.data];
      FlattenSnoc(Datas(init), last.data);
      if last.src.Some? {
        assert Datas(DataEntries(log)) == Datas(DataEntries(init)) + [last.data];
        FlattenSnoc(Datas(DataEntries(init)), last.data);
      } else {
        assert DataEntries(log) == DataEntries(init);
      }
    }
  }

  lemma LogDecodes(c: Config, enq: seq<Item>, log: seq<Entry>)
    requires c.Valid() && LogOk(c, enq, log)
    requires forall k :: 0 <= k < |enq| ==> |enq[k].data| < 65536
    ensures Whole(c.f, CellBytes(log)) && Decode(c.f, CellBytes(log)) == Decoded(Flatten(Datas(log)), Eof)
  {
    forall k | 0 <= k < |log|
      ensures CellOf(c.f, log[k].cell, log[k].data) && |log[k].data| < 65536
    {
      assert EntryOk(c, enq, log[k]);
    }
    FlushDecodes(c.f, LogCells(log), Datas(log));
    WholeEndsCleanly(c.f, CellBytes(log));
  }

  /** The wire up to its first failed write. */
  function CleanWire(s: State): seq<byte> {
    CellBytes(s.log[..Before(s)])
  }

  lemma SequentialPrefix(log: seq<Entry>, m: nat)
    requires m <= |log| && Sequential(log)
    ensures Sequential(log[..m]) && |Sources(log[..m])| <= |Sources(log)|
  {
    assert log == log[..m] + log[m..];
    SourcesConcat(log[..m], log[m..]);
    var a := Sources(log[..m]);
    forall j | 0 <= j < |a|
      ensures a[j] == j
    {
      assert a[j] == Sources(log)[j];
    }
  }

  /** Nothing is skipped before the first failed write. */
  lemma CleanIsSequential(c: Config, s: State)
    requires PacedTheorems.Inv(c, s) && LossInv(s) && WireInv(s)
    ensures Sequential(s.log[..Before(s)])
  {
    if s.lostAt.None? {
      NothingLost(c, s);
      SequentialPrefix(s.log, Before(s));
    } else {
      assert s.log[..s.lostAt.value][..Before(s)] == s.log[..Before(s)];
      SequentialPrefix(s.log[..s.lostAt.value], Before(s));
    }
  }

  lemma CleanDatas(c: Config, s: State)
    requires PacedTheorems.Inv(c, s) && Sequential(s.log[..Before(s)])
    ensures var n := |Sources(s.log[..Before(s)])|;
            n <= |s.enq| && Flatten(Datas(s.log[..Before(s)])) == Flatten(ItemDatas(s.enq[..n]))
  {
    var log := s.log[..Before(s)];
    var es := DataEntries(log);
    assert LogOk(c, s.enq, log);
    DataEntriesAt(c, s.enq, log);
    forall j | 0 <= j < |es|
      ensures j < |s.enq| && es[j].data == s.enq[j].data
    {
      assert EntryOk(c, s.enq, es[j]) && Sources(log)[j] == j;
    }
    if es != [] {
      assert es[|es| - 1].data == s.enq[|es| - 1].data;
    }
    assert Datas(es) == ItemDatas(s.enq[..|es|]);
    assert forall k :: 0 <= k < |log| ==> EntryOk(c, s.enq, log[k]);
    CoverIsSilent(log);
  }

  /**
   * In every run: from the wire up to its first failed write the peer decodes exactly the
   * payloads of the cells that left, cell by cell in enqueue order, and from any part of it a
   * prefix of that; and nothing that comes behind takes these bytes back. Without a failed
   * write this is the whole wire.
   */
  lemma PeerDecodes(c: Config, run: seq<Event>, part: seq<byte>)
    requires c.Valid() && Exec(c, run).Some?
    requires part <= CleanWire(Exec(c, run).value)
    ensures var s := Exec(c, run).value;
            var n := |Sources(s.log[..Before(s)])|;
            && n <= |s.enq|
            && Decode(c.f, CleanWire(s)) == Decoded(Flatten(ItemDatas(s.enq[..n])), Eof)
            && Decode(c.f, part).bytes <= Flatten(ItemDatas(s.enq[..n])) <= Decode(c.f, s.wire).bytes
            && CleanWire(s) <= s.wire && (!s.failed ==> CleanWire(s) == s.wire && n == |Sources(s.log)|)
  {
    PacedTheorems.RunInv(c, run);
    RunLosses(c, run);
    RunWire(c, run);
    CleanDecodes(c, Exec(c, run).value, part);
  }

  lemma CleanDecodes(c: Config, s: State, part: seq<byte>)
    requires c.Valid() && PacedTheorems.Inv(c, s) && LossInv(s) && WireInv(s) && part <= CleanWire(s)
    ensures var n := |Sources(s.log[..Before(s)])|;
            && n <= |s.enq|
            && Decode(c.f, CleanWire(s)) == Decoded(Flatten(ItemDatas(s.enq[..n])), Eof)
            && Decode(c.f, part).bytes <= Flatten(ItemDatas(s.enq[..n])) <= Decode(c.f, s.wire).bytes
            && CleanWire(s) <= s.wire && (!s.failed ==> CleanWire(s) == s.wire && n == |Sources(s.log)|)
  {
    CleanIsSequential(c, s);
    CleanDatas(c, s);
    LogDecodes(c, s.enq, s.log[..Before(s)]);
    DecodesWithin(c.f, part, CleanWire(s));
    CleanStarts(s);
    DecodesWithin(c.f, CleanWire(s), s.wire);
  }

  lemma CleanStarts(s: State)
    requires WireInv(s)
    ensures CleanWire(s) <= s.wire
    ensures !s.failed ==> CleanWire(s) == s.wire && s.log[..Before(s)] == s.log
  {
    assert s.wire == CleanWire(s) + (FirstPart(s) + CellBytes(s.log[Before(s)..]) + LastPart(s));
    if !s.failed {
      assert s.log[..|s.log|] == s.log && s.log[|s.log|..] == [];
    }
  }

  lemma DecodesWithin(f: Framing, part: seq<byte>, w: seq<byte>)
    requires f.Valid() && part <= w
    ensures Decode(f, part).bytes <= Decode(f, w).bytes
  {
    assert w == part + w[|part|..];
    DecodePrefix(f, part, w[|part|..]);
  }
}
