/** What a failed base write of the paced shaper does to the cells around it. */
module PacedCuts {
  import opened Bytes
  import opened Framing
  import opened CutCells
  import opened PacedShaper
  import opened PacedTheorems
  import opened PacedLosses
  import opened PacedWire
  import opened PacedRuns
  import PacedTiming

  // ---------- past a failed write ----------

  /** The peer hears every cell written whole, before and after a failed write. */
  ghost predicate Heard(c: Config, s: State)
    requires c.f.Valid()
  {
    var m := Before(s);
    Decode(c.f, s.wire).bytes
      == Flatten(Datas(s.log[..m])) + Decode(c.f, FirstPart(s)).bytes
         + Flatten(Datas(s.log[m..])) + Decode(c.f, LastPart(s)).bytes
  }

  /** Nothing follows the first failed write. */
  ghost predicate NothingFollows(s: State) {
    Before(s) == |s.log| && LastPart(s) == []
  }

  lemma ThreeParts(f: Framing, a: seq<byte>, b: seq<byte>, d: seq<byte>, e: seq<byte>)
    requires f.Valid() && Whole(f, a) && Whole(f, b) && Whole(f, d)
    ensures Decode(f, a + b + d + e).bytes
              == Decode(f, a).bytes + Decode(f, b).bytes + Decode(f, d).bytes + Decode(f, e).bytes
  {
    DecodeConcat(f, a, b);
    ResidueConcat(f, a, b);
    DecodeConcat(f, a + b, d);
    ResidueConcat(f, a + b, d);
    DecodeConcat(f, a + b + d, e);
  }

  /**
   * In every run: the peer hears every cell written whole if the first failed write left
   * nothing or a whole cell on the wire, or if nothing follows it.
   */
  lemma HeardPast(c: Config, run: seq<Event>)
    requires c.Valid() && Exec(c, run).Some?
    ensures var s := Exec(c, run).value;
            Whole(c.f, FirstPart(s)) || NothingFollows(s) ==> Heard(c, s)
  {
    PacedTheorems.RunInv(c, run);
    RunWire(c, run);
    HeardNow(c, Exec(c, run).value);
  }

  lemma HeardNow(c: Config, s: State)
    requires c.Valid() && PacedTheorems.Inv(c, s) && WireInv(s)
    ensures Whole(c.f, FirstPart(s)) || NothingFollows(s) ==> Heard(c, s)
  {
    var m := Before(s);
    var (a, b) := (s.log[..m], s.log[m..]);
    assert LogOk(c, s.enq, a) && LogOk(c, s.enq, b) by {
      assert forall k :: 0 <= k < |b| ==> b[k] == s.log[m + k];
    }
    LogDecodes(c, s.enq, a);
    LogDecodes(c, s.enq, b);
    HeardParts(c, s, a, b);
  }

  lemma HeardParts(c: Config, s: State, a: seq<Entry>, b: seq<Entry>)
    requires c.f.Valid() && a == s.log[..Before(s)] && b == s.log[Before(s)..]
    requires s.wire == CellBytes(a) + FirstPart(s) + CellBytes(b) + LastPart(s)
    requires Whole(c.f, CellBytes(a)) && Decode(c.f, CellBytes(a)).bytes == Flatten(Datas(a))
    requires Whole(c.f, CellBytes(b)) && Decode(c.f, CellBytes(b)).bytes == Flatten(Datas(b))
    ensures Whole(c.f, FirstPart(s)) || NothingFollows(s) ==> Heard(c, s)
  {
    if Whole(c.f, FirstPart(s)) {
      ThreeParts(c.f, CellBytes(a), FirstPart(s), CellBytes(b), LastPart(s));
    } else if NothingFollows(s) {
      assert b == [] && s.wire == CellBytes(a) + FirstPart(s);
      DecodeConcat(c.f, CellBytes(a), FirstPart(s));
      assert Next(c.f, []) == Halt(Eof);
    }
  }

  // ---------- exactly when the cells that follow are heard ----------

  lemma CutStays(c: Config, s: State, more: seq<Event>)
    requires s.cuts != [] && From(c, s, more).Some?
    ensures From(c, s, more).value.cuts != [] && From(c, s, more).value.cuts[0] == s.cuts[0]
    decreases |more|
  {
    if more != [] {
      CutStep(c, s, more[0]);
      CutStays(c, Apply(c, s, more[0]), more[1..]);
    }
  }

  lemma CutStep(c: Config, s: State, e: Event)
    requires s.cuts != [] && Enabled(c, s, e)
    ensures Apply(c, s, e).cuts != [] && Apply(c, s, e).cuts[0] == s.cuts[0]
  {
    var s' := Apply(c, s, e);
    assert s.cuts <= s'.cuts;
  }

  /** If these steps can be taken, the peer hears everything then. */
  ghost predicate HearsAfter(c: Config, s: State, more: seq<Event>)
    requires c.f.Valid()
  {
    From(c, s, more).Some? ==> Heard(c, From(c, s, more).value)
  }

  /** A Write of one byte overtakes the dying pacer, reports success, and is flushed by Close. */
  lemma OneMoreWrite(c: Config, s: State, x: byte) returns (more: seq<Event>, t: State)
    requires c.Valid() && PacedTheorems.Inv(c, s) && s.pacer.Failing? && s.queue == []
    requires c.single ==> forall i :: 0 <= i < |s.calls| ==> s.calls[i].phase.Returned?
    requires s.closer.Open? || s.closer.Joining?
    ensures From(c, s, more) == Some(t)
    ensures t.closer.Closed? && t.lost == s.lost && t.cuts == s.cuts
    ensures |t.calls| == |s.calls| + 1 && t.calls[|s.calls|].p == [x] && t.calls[|s.calls|].phase == Returned(Ok)
    ensures t.wire == s.wire + OneByteCell(c.f, x)
    ensures |t.log| == |s.log| + 1 && t.log[..|s.log|] == s.log && t.log[|s.log|].data == [x]
  {
    var (i, cell) := (|s.calls|, OneByteCell(c.f, x));
    OneByteCarries(c.f, x);
    var u;
    more, u := WriteStarts(c, s, [x], [cell], [[x]]);
    var v := Apply(c, u, Send(i));
    Goes(c, u, Send(i), v, [], v);
    Joined(c, s, more, u, [Send(i)] + []);
    more := more + ([Send(i)] + []);
    var last;
    last, t := DeadPacerCloses(c, v);
    Joined(c, s, more, v, last);
    more := more + last;
  }

  /** Behind a cell cut in the middle, that Write is not heard as it was sent. */
  lemma CutIsMisread(c: Config, s: State, e: nat, part: seq<byte>) returns (more: seq<Event>, t: State)
    requires c.Valid() && PacedTheorems.Inv(c, s) && WireInv(s) && Enabled(c, s, WriteErr(e, part)) && s.queue == []
    requires c.single ==> forall i :: 0 <= i < |s.calls| ==> s.calls[i].phase.Returned?
    requires part != [] && part != s.pacer.hand.cell
    ensures From(c, Apply(c, s, WriteErr(e, part)), more) == Some(t)
    ensures t.closer.Closed? && t.lost == s.lost + (if s.pacer.hand.src.Some? then 1 else 0)
    ensures |t.calls| == |s.calls| + 1 && t.calls[|s.calls|].phase == Returned(Ok) && |t.log| == |s.log| + 1
    ensures !Heard(c, t)
  {
    var u := Apply(c, s, WriteErr(e, part));
    var x := OtherByte(c.f, part);
    HandFits(c, s);
    NoCutYet(c, s);
    LogDecodes(c, s.enq, s.log);
    PacedTheorems.Step(c, s, WriteErr(e, part));
    more, t := OneMoreWrite(c, u, x);
    PartWhole(c.f, s.pacer.hand.cell, s.pacer.hand.data, part);
    OneByteMisread(c.f, s.pacer.hand.cell, s.pacer.hand.data, part);
    MisreadNow(c, s, t, x, part, OneByteCell(c.f, x));
  }

  lemma HandFits(c: Config, s: State)
    requires PacedTheorems.Inv(c, s) && s.pacer.Writing?
    ensures CellOf(c.f, s.pacer.hand.cell, s.pacer.hand.data) && |s.pacer.hand.data| < 65536
  {
    assert EntryOk(c, s.enq, s.pacer.hand);
  }

  lemma SaidAfterCut(c: Config, log: seq<Entry>, t: State, x: byte, part: seq<byte>)
    requires c.Valid() && t.cuts == [Cut(|log|, part)] && Decode(c.f, part).bytes == []
    requires |t.log| == |log| + 1 && t.log[..|log|] == log && t.log[|log|].data == [x]
    requires Heard(c, t)
    ensures Decode(c.f, t.wire).bytes == Flatten(Datas(log)) + [x]
  {
    assert t.log[|log|..] == [t.log[|log|]];
    assert Datas([t.log[|log|]]) == [[x]];
    assert Flatten([[x]]) == [x] + Flatten<byte>([]);
    assert Next(c.f, []) == Halt(Eof);
  }

  lemma NoCutYet(c: Config, s: State)
    requires CloserInv(s) && FailInv(s) && WireInv(s) && s.pacer.Writing?
    ensures s.cuts == [] && s.wire == CellBytes(s.log)
  {
    CleanStarts(s);
    assert s.log[..|s.log|] == s.log;
  }

  lemma MisreadNow(c: Config, s: State, t: State, x: byte, part: seq<byte>, cell: seq<byte>)
    requires c.Valid() && Whole(c.f, s.wire) && Decode(c.f, s.wire).bytes == Flatten(Datas(s.log))
    requires Decode(c.f, part).bytes == [] && Decode(c.f, part + cell).bytes != [x]
    requires t.cuts == [Cut(|s.log|, part)] && t.wire == s.wire + part + cell
    requires |t.log| == |s.log| + 1 && t.log[..|s.log|] == s.log && t.log[|s.log|].data == [x]
    ensures !Heard(c, t)
  {
    assert t.wire == s.wire + (part + cell);
    Misread(c.f, s.wire, part + cell, x);
    if Heard(c, t) {
      SaidAfterCut(c, s.log, t, x, part);
    }
  }

  /**
   * When a base write fails on a drained queue, the peer hears every cell written whole in
   * every continuation if and only if the failed write left nothing, or its whole cell.
   */
  lemma HearsExactly(c: Config, run: seq<Event>, e: nat, part: seq<byte>)
    requires c.Valid() && Exec(c, run).Some? && Enabled(c, Exec(c, run).value, WriteErr(e, part))
    requires Exec(c, run).value.queue == []
    requires c.single ==> forall i :: 0 <= i < |Exec(c, run).value.calls| ==> Exec(c, run).value.calls[i].phase.Returned?
    ensures var s := Exec(c, run).value;
            part == [] || part == s.pacer.hand.cell <==>
              forall more :: HearsAfter(c, Apply(c, s, WriteErr(e, part)), more)
  {
    var s := Exec(c, run).value;
    var u := Apply(c, s, WriteErr(e, part));
    PacedTheorems.RunInv(c, run);
    RunWire(c, run);
    HandFits(c, s);
    PartWhole(c.f, s.pacer.hand.cell, s.pacer.hand.data, part);
    if part == [] || part == s.pacer.hand.cell {
      ExecSnoc(c, run, WriteErr(e, part));
      forall more
        ensures HearsAfter(c, u, more)
      {
        if From(c, u, more).Some? {
          CutStays(c, u, more);
          ExecFrom(c, run + [WriteErr(e, part)], more);
          HeardPast(c, run + [WriteErr(e, part)] + more);
        }
      }
    } else {
      var more, t := CutIsMisread(c, s, e, part);
      assert !HearsAfter(c, u, more);
    }
  }

  // ---------- witnesses ----------

  /** The pacer computes a delay, sleeps and wakes. */
  lemma Awakes(c: Config, s: State) returns (run: seq<Event>, t: State)
    requires c.Valid() && s.pacer.Ready? && s.now == s.paceStart == 0
    ensures From(c, s, run) == Some(t)
    ensures t.pacer.Awake? && t == s.(now := t.now, pacer := Awake, computes := s.computes + 1)
  {
    PacedTiming.IntervalBounds(c, 0);
    var s1 := Apply(c, s, Compute);
    var s2 := Apply(c, s1, Advance(Interval(c, 0)));
    run := Takes2(c, s, Compute, s1, Advance(Interval(c, 0)), s2);
    t := Apply(c, s2, Wake);
    Goes(c, s2, Wake, t, [], t);
    Joined(c, s, run, s2, [Wake] + []);
    run := run + ([Wake] + []);
  }

  /**
   * With padding: a cover write is cut after one byte, so no data cell is lost, and yet the
   * payload of a Write that reported success, flushed by Close, is not what the peer hears.
   */
  lemma CutCoverIsMisread(c: Config) returns (run: seq<Event>, t: State)
    requires c.Valid() && !c.pace.noPad
    ensures Exec(c, run) == Some(t) && t.closer.Closed? && t.lost == 0
    ensures |t.calls| == 1 && t.calls[0].phase == Returned(Ok) && |t.log| == 1
    ensures !Heard(c, t)
  {
    var (cover, s) := (CoverCell(c.f), Init(c));
    run, s := CoverInHand(c);
    var e := WriteErr(0, cover[..1]);
    PacedTheorems.RunInv(c, run);
    RunWire(c, run);
    ExecSnoc(c, run, e);
    var more;
    more, t := CutIsMisread(c, s, 0, cover[..1]);
    Chain(c, run + [e], Apply(c, s, e), more, t);
    run := run + [e] + more;
  }

  lemma CoverInHand(c: Config) returns (run: seq<Event>, t: State)
    requires c.Valid() && !c.pace.noPad
    ensures Exec(c, run) == Some(t) && t.lost == 0 && t.queue == [] && t.calls == [] && t.log == []
    ensures t.pacer.Writing? && t.pacer.hand.cell == CoverCell(c.f) && t.pacer.hand.src.None?
  {
    var cover := CoverCell(c.f);
    CoverCarriesNothing(c.f);
    var more, s := Awakes(c, Init(c));
    assert Exec(c, []) == Some(Init(c)) && [] + more == more;
    Chain(c, [], Init(c), more, s);
    t := Apply(c, s, Take(cover));
    ExecSnoc(c, more, Take(cover));
    run := more + [Take(cover)];
  }

  /** A two-cell Write has reported success, and only its second cell is on the wire. */
  ghost predicate Skipped(s: State, p: seq<byte>) {
    && s.closer.Closed? && s.queue == []
    && |s.calls| == 1 && s.calls[0].p == p && s.calls[0].phase == Returned(Ok) && |s.calls[0].cells| == 2
    && Sources(s.log) == [1] && s.wire == s.calls[0].cells[1]
  }

  /** The Write enqueues its first cell, and the pacer wakes. */
  lemma OneQueued(c: Config, p: seq<byte>, cells: seq<seq<byte>>, ds: seq<seq<byte>>) returns (run: seq<Event>, t: State)
    requires c.Valid() && Framed(c.f, p, cells, ds) && |cells| == 2 && p != []
    ensures From(c, Init(c), run) == Some(t)
    ensures t.pacer.Awake? && t.log == [] && t.wire == [] && t.head == 0 && t.closer.Open? && !t.done && t.paceErr.None?
    ensures t.calls == [Call(p, cells, ds, 1, Sending)] && t.queue == [Item(0, cells[0], ds[0])]
  {
    var u;
    run, u := WriteStarts(c, Init(c), p, cells, ds);
    var v := Apply(c, u, Send(0));
    Goes(c, u, Send(0), v, [], v);
    Joined(c, Init(c), run, u, [Send(0)] + []);
    run := run + ([Send(0)] + []);
    var more;
    more, t := Awakes(c, v);
    Joined(c, Init(c), run, v, more);
    run := run + more;
  }

  /** It takes the first cell, the Write enqueues its second, and the first is lost. */
  lemma OneLost(c: Config, s: State) returns (run: seq<Event>, t: State)
    requires c.Valid() && s.pacer.Awake? && |s.queue| == 1 && |s.calls| == 1
    requires s.calls[0].phase.Sending? && s.calls[0].sent == 1 && |s.calls[0].cells| == |s.calls[0].ds| == 2
    ensures From(c, s, run) == Some(t)
    ensures var k := s.calls[0];
            && t.pacer.Failing? && t.head == s.head + 1 && t.calls == [k.(sent := 2, phase := Returned(Ok))]
            && t.queue == [Item(0, k.cells[1], k.ds[1])]
            && t.log == s.log && t.wire == s.wire && t.done == s.done && t.closer == s.closer
  {
    var u := Apply(c, s, Take(CoverCell(c.f)));
    FirstTaken(c, s);
    var v := Apply(c, u, Send(0));
    run := Takes2(c, s, Take(CoverCell(c.f)), u, Send(0), v);
    t := Apply(c, v, WriteErr(0, []));
    Goes(c, v, WriteErr(0, []), t, [], t);
    Joined(c, s, run, v, [WriteErr(0, [])] + []);
    run := run + ([WriteErr(0, [])] + []);
  }

  lemma FirstTaken(c: Config, s: State)
    requires c.Valid() && s.pacer.Awake? && |s.queue| == 1
    ensures Enabled(c, s, Take(CoverCell(c.f)))
    ensures Apply(c, s, Take(CoverCell(c.f))) == s.(queue := [], head := s.head + 1, pacer := Writing(Oldest(s)))
  {
    CoverCarriesNothing(c.f);
  }

  lemma SkipRun(c: Config, p: seq<byte>, cells: seq<seq<byte>>, ds: seq<seq<byte>>) returns (run: seq<Event>, t: State)
    requires c.Valid() && Framed(c.f, p, cells, ds) && |cells| == 2 && p != []
    ensures From(c, Init(c), run) == Some(t) && t.closer.Closed? && t.queue == []
    ensures t.calls == [Call(p, cells, ds, 2, Returned(Ok))] && t.wire == cells[1]
    ensures |t.log| == 1 && t.log[0].src == Some(1)
  {
    var more, s, u;
    run, s := OneQueued(c, p, cells, ds);
    more, u := OneLost(c, s);
    Joined(c, Init(c), run, s, more);
    run := run + more;
    more, t := DeadPacerCloses(c, u);
    Joined(c, Init(c), run, u, more);
    run := run + more;
  }

  lemma OneSource(log: seq<Entry>, k: nat)
    requires |log| == 1 && log[0].src == Some(k)
    ensures Sources(log) == [k]
  {
    SourcesSnoc([], log[0]);
    assert [] + [log[0]] == log;
  }

  /** A Write of two cells can succeed and only the second reach the wire. */
  lemma FlushAfterErrorSkips(c: Config, p: seq<byte>, cells: seq<seq<byte>>, ds: seq<seq<byte>>) returns (run: seq<Event>, t: State)
    requires c.Valid() && Framed(c.f, p, cells, ds) && |cells| == 2 && p != []
    ensures Exec(c, run) == Some(t) && Skipped(t, p) && DataAfterLoss(t)
  {
    run, t := SkipRun(c, p, cells, ds);
    assert Exec(c, []) == Some(Init(c)) && [] + run == run;
    Chain(c, [], Init(c), run, t);
    OneSource(t.log, 1);
    SkipsExactly(c, run);
    assert Sources(t.log)[0] == 1;
  }
}
