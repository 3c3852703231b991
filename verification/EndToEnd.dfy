/** The reader of a shaped connection at the far end of the wire of either shaper. */
module EndToEnd {
  import opened Bytes
  import opened Framing
  import opened Streams
  import opened ShapedConn
  import DirectShaper
  import PacedShaper
  import PacedWire

  /** The reader works on the start of this wire and has met no error. */
  ghost predicate ReadsFrom(r: Reader, f: Framing, wire: seq<byte>)
    reads r, r.base, r.cell, r.rbuf, r.pend
  {
    r.Valid() && r.f == f && r.input <= wire && !r.failed
  }

  lemma ReaderIsBehind(r: Reader, f: Framing, wire: seq<byte>)
    requires f.Valid() && ReadsFrom(r, f, wire)
    ensures r.delivered <= Decode(f, wire).bytes
  {
    r.NeverMoreThanCarried();
    DecodePrefix(f, r.input, wire[|r.input|..]);
    assert r.input + wire[|r.input|..] == wire;
  }

  /** An application that reads with nonempty buffers of any sizes until its first error. */
  method ReadToEnd(f: Framing, wire: seq<byte>) returns (got: seq<byte>, why: Stop)
    requires f.Valid()
    ensures Decoded(got, why) == Decode(f, wire)
  {
    var base := new ByteSource(wire);
    var r := new Reader(f, base);
    got := [];
    while true
      invariant fresh(r) && fresh(r.base) && fresh(r.cell) && fresh(r.rbuf)
      invariant r.Valid() && !r.failed && r.f == f && r.input == wire && r.delivered == got
      decreases |Decode(f, wire).bytes| - r.served
    {
      r.NeverMoreThanCarried();
      var size: nat :| size > 0;
      var p := new byte[size];
      var n, err := r.Read(p);
      if err.Some? {
        return got, err.value;
      }
      got := got + p[..n];
      r.NeverMoreThanCarried();
    }
  }

  // ---------- direct mode ----------

  /**
   * Whatever buffers the application reads with, and wherever the wire is cut, it has a prefix
   * of the payloads in lock order.
   */
  lemma DirectDelivers(c: DirectShaper.Config, run: seq<DirectShaper.Event>, r: Reader)
    requires c.Valid() && DirectShaper.Exec(c, run).Some? && !DirectShaper.Exec(c, run).value.failed
    requires ReadsFrom(r, c.f, DirectShaper.Exec(c, run).value.wire)
    ensures r.delivered <= Flatten(DirectShaper.Exec(c, run).value.sent)
  {
    DirectCarries(c, run);
    ReaderIsBehind(r, c.f, DirectShaper.Exec(c, run).value.wire);
  }

  lemma DirectCarries(c: DirectShaper.Config, run: seq<DirectShaper.Event>)
    requires c.Valid() && DirectShaper.Exec(c, run).Some? && !DirectShaper.Exec(c, run).value.failed
    ensures var s := DirectShaper.Exec(c, run).value;
            Decode(c.f, s.wire) == Decoded(Flatten(s.sent), Eof)
  {
    DirectShaper.RunInv(c, run);
    var s := DirectShaper.Exec(c, run).value;
    assert [] + Decode(c.f, s.wire).bytes == Decode(c.f, s.wire).bytes;
    WholeEndsCleanly(c.f, s.wire);
  }

  /** Reading all of it gives all the payloads, and then a clean end. */
  method ReceiveDirect(ghost c: DirectShaper.Config, ghost run: seq<DirectShaper.Event>, f: Framing, wire: seq<byte>)
    returns (got: seq<byte>, why: Stop)
    requires c.Valid() && DirectShaper.Exec(c, run).Some? && !DirectShaper.Exec(c, run).value.failed
    requires f == c.f && wire == DirectShaper.Exec(c, run).value.wire
    ensures got == Flatten(DirectShaper.Exec(c, run).value.sent) && why == Eof
  {
    DirectCarries(c, run);
    got, why := ReadToEnd(f, wire);
  }

  // ---------- paced mode ----------

  /** The payloads of the data cells written before the first failed base write. */
  function CleanPayload(s: PacedShaper.State): seq<byte>
    requires |PacedShaper.Sources(s.log[..PacedWire.Before(s)])| <= |s.enq|
  {
    Flatten(PacedShaper.ItemDatas(s.enq[..|PacedShaper.Sources(s.log[..PacedWire.Before(s)])|]))
  }

  /**
   * In every run, a reader that has been given no more than the wire up to its first failed
   * write has a prefix of the payloads of the cells that left, in enqueue order.
   */
  lemma PacedDelivers(c: PacedShaper.Config, run: seq<PacedShaper.Event>, r: Reader)
    requires c.Valid() && PacedShaper.Exec(c, run).Some?
    requires ReadsFrom(r, c.f, PacedWire.CleanWire(PacedShaper.Exec(c, run).value))
    ensures var s := PacedShaper.Exec(c, run).value;
            |PacedShaper.Sources(s.log[..PacedWire.Before(s)])| <= |s.enq| && r.delivered <= CleanPayload(s)
  {
    PacedWire.PeerDecodes(c, run, []);
    ReaderIsBehind(r, c.f, PacedWire.CleanWire(PacedShaper.Exec(c, run).value));
  }

  /**
   * Reading to the end of the wire, whatever failed writes left on it, gives those payloads
   * first, and without a failed write exactly those, and then a clean end.
   */
  method ReceivePaced(ghost c: PacedShaper.Config, ghost run: seq<PacedShaper.Event>, f: Framing, wire: seq<byte>)
    returns (got: seq<byte>, why: Stop)
    requires c.Valid() && PacedShaper.Exec(c, run).Some?
    requires f == c.f && wire == PacedShaper.Exec(c, run).value.wire
    ensures var s := PacedShaper.Exec(c, run).value;
            && |PacedShaper.Sources(s.log[..PacedWire.Before(s)])| <= |s.enq|
            && CleanPayload(s) <= got
            && (!s.failed ==> got == CleanPayload(s) && why == Eof)
  {
    PacedWire.PeerDecodes(c, run, []);
    got, why := ReadToEnd(f, wire);
  }
}
