/**
 * The two cell layouts of the stream shaper as pure functions: what one cell looks
 * like on the wire, and what a receiver makes of an arbitrary byte stream.
 */
module Framing {
  import opened Bytes

  /** Fixed cells of one size, or self-describing cells of variable size. */
  datatype Framing = Fixed(cellSize: nat) | Morph {
    // A cell size of 2 or less disables shaping: no shaped connection exists.
    predicate Valid() {
      Fixed? ==> cellSize > 2
    }
  }

  datatype Stop = Eof | UnexpectedEof | Corrupt

  datatype Parse = Cell(data: seq<byte>, rest: seq<byte>) | Halt(why: Stop)

  /** One pass of a receiver's loop over the stream w: a cell, or why there is none. */
  function Next(f: Framing, w: seq<byte>): (r: Parse)
    requires f.Valid()
    ensures r.Cell? ==> |r.data| + |r.rest| < |w|
  {
    match f
    case Fixed(size) =>
      if |w| < size then Halt(if |w| == 0 then Eof else UnexpectedEof)
      else if Val16(w) > size - 2 then Halt(Corrupt)
      else Cell(w[2..2 + Val16(w)], w[size..])
    case Morph =>
      if |w| < 2 then Halt(if |w| == 0 then Eof else UnexpectedEof)
      else
        var n := Val16(w);
        if n < 2 then Halt(Corrupt)
        // io.ReadFull reports a plain EOF when not one byte of the body arrived
        else if |w| < 2 + n then Halt(if |w| == 2 then Eof else UnexpectedEof)
        else if Val16(w[2..]) > n - 2 then Halt(Corrupt)
        else Cell(w[4..4 + Val16(w[2..])], w[2 + n..])
  }

  datatype Decoded = Decoded(bytes: seq<byte>, why: Stop)

  /** The payload carried by a finite stream up to its first error, and that error. */
  function Decode(f: Framing, w: seq<byte>): Decoded
    requires f.Valid()
    decreases |w|
  {
    match Next(f, w)
    case Halt(why) => Decoded([], why)
    case Cell(data, rest) =>
      var d := Decode(f, rest);
      Decoded(data + d.bytes, d.why)
  }

  /** What is left of a stream once every whole leading cell is taken off. */
  function Residue(f: Framing, w: seq<byte>): (r: seq<byte>)
    requires f.Valid()
    decreases |w|
  {
    match Next(f, w)
    case Halt(_) => w
    case Cell(_, rest) => Residue(f, rest)
  }

  /** The stream is a sequence of whole cells. */
  predicate Whole(f: Framing, w: seq<byte>)
    requires f.Valid()
  {
    Residue(f, w) == []
  }

  lemma NextExtends(f: Framing, w: seq<byte>, more: seq<byte>)
    requires f.Valid() && Next(f, w).Cell?
    ensures Next(f, w + more) == Cell(Next(f, w).data, Next(f, w).rest + more)
  {
    var u := w + more;
    assert u[..|w|] == w;
    assert u[0] == w[0] && u[1] == w[1];
    match f
    case Fixed(size) =>
      assert u[2..2 + Val16(w)] == w[2..2 + Val16(w)];
      assert u[size..] == w[size..] + more;
    case Morph =>
      assert u[2] == w[2] && u[3] == w[3];
      var r := Val16(w[2..]);
      assert u[4..4 + r] == w[4..4 + r];
      assert u[2 + Val16(w)..] == w[2 + Val16(w)..] + more;
  }

  lemma {:induction false} ResidueConcat(f: Framing, w: seq<byte>, more: seq<byte>)
    requires f.Valid() && Whole(f, w)
    ensures Residue(f, w + more) == Residue(f, more)
    decreases |w|
  {
    if w == [] {
      assert w + more == more;
    } else {
      NextExtends(f, w, more);
      ResidueConcat(f, Next(f, w).rest, more);
    }
  }

  lemma {:induction false} WholeEndsCleanly(f: Framing, w: seq<byte>)
    requires f.Valid() && Whole(f, w)
    ensures Decode(f, w).why == Eof
    decreases |w|
  {
    if w != [] {
      WholeEndsCleanly(f, Next(f, w).rest);
    }
  }

  /** Decoding is compositional at cell boundaries. */
  lemma {:induction false} DecodeConcat(f: Framing, w: seq<byte>, more: seq<byte>)
    requires f.Valid() && Whole(f, w)
    ensures Decode(f, w + more) == Decoded(Decode(f, w).bytes + Decode(f, more).bytes, Decode(f, more).why)
    decreases |w|
  {
    if w == [] {
      assert w + more == more;
    } else {
      var n := Next(f, w);
      NextExtends(f, w, more);
      DecodeConcat(f, n.rest, more);
      PrependData(n.data, Decode(f, n.rest).bytes, Decode(f, more).bytes);
    }
  }

  lemma PrependData(a: seq<byte>, b: seq<byte>, c: seq<byte>)
    ensures a + (b + c) == (a + b) + c
  {
  }

  /** Bytes that arrive later never change what was decoded before. */
  lemma {:induction false} DecodePrefix(f: Framing, w: seq<byte>, more: seq<byte>)
    requires f.Valid()
    ensures Decode(f, w).bytes <= Decode(f, w + more).bytes
    decreases |w|
  {
    if Next(f, w).Cell? {
      NextExtends(f, w, more);
      DecodePrefix(f, Next(f, w).rest, more);
    }
  }

  /**
   * Exactly when a stream ends in a clean EOF. In fixed framing that means it ended on a
   * cell boundary. In variable framing it does not: a stream cut right after a length
   * field reports the same EOF as a complete one.
   */
  lemma {:induction false} CleanEofExactly(f: Framing, w: seq<byte>)
    requires f.Valid()
    ensures var r := Residue(f, w);
            Decode(f, w).why == Eof <==> r == [] || (f.Morph? && |r| == 2 && Val16(r) >= 2)
    decreases |w|
  {
    if Next(f, w).Cell? {
      CleanEofExactly(f, Next(f, w).rest);
    }
  }

  /** What is left announces more data than its cell can hold, or a cell too short to be one. */
  ghost predicate Overfull(f: Framing, r: seq<byte>) {
    match f
    case Fixed(size) => |r| >= size > 2 && r[0] as int * 256 + r[1] as int > size - 2
    case Morph =>
      && |r| >= 2
      && var n := r[0] as int * 256 + r[1] as int;
         n < 2 || (|r| >= 2 + n && r[2] as int * 256 + r[3] as int > n - 2)
  }

  /** A receiver reports corruption exactly at such a cell, and else a cut stream or its end. */
  lemma {:induction false} CorruptExactly(f: Framing, w: seq<byte>)
    requires f.Valid()
    ensures Decode(f, w).why == Corrupt <==> Overfull(f, Residue(f, w))
    decreases |w|
  {
    if Next(f, w).Cell? {
      CorruptExactly(f, Next(f, w).rest);
    }
  }

  /** A stream that lost a whole cell body is reported as cleanly closed. */
  lemma TruncatedBodyLooksClean()
    ensures var w: seq<byte> := [0, 100];
            !Whole(Morph, w) && Decode(Morph, w) == Decoded([], Eof)
  {
    var w: seq<byte> := [0, 100];
    assert Val16(w) == 100;
    assert Next(Morph, w) == Halt(Eof);
  }

  // ---------- the sender's layouts ----------

  /** A fixed cell carrying d: two bytes of length (cast to 16 bits), d, and anything after. */
  ghost predicate FixedCell(size: nat, c: seq<byte>, d: seq<byte>) {
    && size > 2
    && |c| == size
    && |d| <= size - 2
    && c[..2] == U16(|d|)
    && c[2..2 + |d|] == d
  }

  /** A variable cell carrying d: length of the rest, length of d, d, and anything after. */
  ghost predicate MorphCell(c: seq<byte>, d: seq<byte>) {
    && 4 <= |c| <= 65535
    && |d| <= |c| - 4
    && c[..2] == U16(|c| - 2)
    && c[2..4] == U16(|d|)
    && c[4..4 + |d|] == d
  }

  ghost predicate CellOf(f: Framing, c: seq<byte>, d: seq<byte>) {
    match f
    case Fixed(size) => FixedCell(size, c, d)
    case Morph => MorphCell(c, d)
  }

  /** A cover cell of the least size. */
  function CoverCell(f: Framing): seq<byte> {
    match f
    case Fixed(size) => seq(size, _ => 0 as byte)
    case Morph => [0, 2, 0, 0]
  }

  lemma CoverCarriesNothing(f: Framing)
    requires f.Valid()
    ensures CellOf(f, CoverCell(f), [])
  {
  }

  ghost predicate CellsOf(f: Framing, cells: seq<seq<byte>>, ds: seq<seq<byte>>) {
    && |cells| == |ds|
    && forall i :: 0 <= i < |cells| ==> CellOf(f, cells[i], ds[i])
  }

  /** What the 16-bit length field lets a receiver see of a payload. */
  function Seen(d: seq<byte>): seq<byte> {
    d[..|d| % 65536]
  }

  function SeenAll(ds: seq<seq<byte>>): seq<seq<byte>> {
    if ds == [] then [] else [Seen(ds[0])] + SeenAll(ds[1..])
  }

  lemma FixedParses(size: nat, c: seq<byte>, d: seq<byte>)
    requires FixedCell(size, c, d)
    ensures Next(Fixed(size), c) == Cell(Seen(d), [])
  {
    var n := |d| % 65536;
    Val16OfU16(|d|);
    assert c[0] == c[..2][0] && c[1] == c[..2][1];
    assert Val16(c) == n;
    assert c[2..2 + n] == c[2..2 + |d|][..n];
  }

  lemma MorphParses(c: seq<byte>, d: seq<byte>)
    requires MorphCell(c, d)
    ensures Next(Morph, c) == Cell(Seen(d), [])
  {
    Val16OfU16(|c| - 2);
    Val16OfU16(|d|);
    assert c[0] == c[..2][0] && c[1] == c[..2][1];
    assert Val16(c) == |c| - 2;
    assert c[2..][0] == c[2..4][0] && c[2..][1] == c[2..4][1];
    assert Val16(c[2..]) == |d| && Seen(d) == d;
  }

  lemma CellParses(f: Framing, c: seq<byte>, d: seq<byte>)
    requires f.Valid() && CellOf(f, c, d)
    ensures Next(f, c) == Cell(Seen(d), [])
  {
    match f
    case Fixed(size) => FixedParses(size, c, d);
    case Morph => MorphParses(c, d);
  }

  lemma OneCell(f: Framing, c: seq<byte>, d: seq<byte>)
    requires f.Valid() && CellOf(f, c, d) && |d| < 65536
    ensures Whole(f, c) && Decode(f, c).bytes == d
  {
    CellParses(f, c, d);
    assert Next(f, []) == Halt(Eof);
    assert Decode(f, []).bytes == [] && Residue(f, []) == [];
  }

  lemma {:induction false} DecodeCells(f: Framing, cells: seq<seq<byte>>, ds: seq<seq<byte>>)
    requires f.Valid() && CellsOf(f, cells, ds)
    ensures Whole(f, Flatten(cells))
    ensures Decode(f, Flatten(cells)) == Decoded(Flatten(SeenAll(ds)), Eof)
  {
    if cells != [] {
      var tail := Flatten(cells[1..]);
      CellParses(f, cells[0], ds[0]);
      NextExtends(f, cells[0], tail);
      assert [] + tail == tail;
      DecodeCells(f, cells[1..], ds[1..]);
    }
  }

  ghost predicate AllFit(ds: seq<seq<byte>>) {
    forall i :: 0 <= i < |ds| ==> |ds[i]| < 65536
  }

  /** A receiver sees the whole payload exactly when every cell's length fits 16 bits. */
  lemma {:induction false} SeenAllExactly(ds: seq<seq<byte>>)
    ensures |Flatten(SeenAll(ds))| <= |Flatten(ds)|
    ensures AllFit(ds) ==> SeenAll(ds) == ds
    ensures !AllFit(ds) ==> |Flatten(SeenAll(ds))| < |Flatten(ds)|
  {
    if ds != [] {
      var tail := ds[1..];
      SeenAllExactly(tail);
      assert SeenAll(ds)[1..] == SeenAll(tail);
      assert ds == [ds[0]] + tail;
      if |ds[0]| < 65536 {
        assert Seen(ds[0]) == ds[0];
        assert AllFit(tail) <==> AllFit(ds);
      }
    }
  }

  /** The payload p split over nonempty cells, every length in its field. */
  ghost predicate Framed(f: Framing, p: seq<byte>, cells: seq<seq<byte>>, ds: seq<seq<byte>>) {
    && CellsOf(f, cells, ds) && AllFit(ds) && Flatten(ds) == p
    && forall i :: 0 <= i < |ds| ==> ds[i] != []
  }

  /** A flush of whole cells decodes to its payload when every length fits its field. */
  lemma FlushDecodes(f: Framing, cells: seq<seq<byte>>, ds: seq<seq<byte>>)
    requires f.Valid() && CellsOf(f, cells, ds)
    requires AllFit(ds)
    ensures Whole(f, Flatten(cells)) && Decode(f, Flatten(cells)).bytes == Flatten(ds)
  {
    DecodeCells(f, cells, ds);
    SeenAllExactly(ds);
  }

  // ---------- splitting a payload over fixed cells ----------

  /** Full chunks of m bytes, then one shorter or equal last chunk. */
  function Chunks(p: seq<byte>, m: nat): (ds: seq<seq<byte>>)
    requires m > 0
    decreases |p|
  {
    if p == [] then []
    else if |p| <= m then [p]
    else [p[..m]] + Chunks(p[m..], m)
  }

  lemma ChunksHead(p: seq<byte>, m: nat)
    requires m > 0 && p != []
    ensures var d := p[..Min(|p|, m)];
            Chunks(p, m) == [d] + Chunks(p[|d|..], m)
  {
    if |p| <= m {
      assert p[|p|..] == [];
      assert p[..|p|] == p;
    }
  }

  lemma {:induction false} ChunksCover(p: seq<byte>, m: nat)
    requires m > 0
    ensures Flatten(Chunks(p, m)) == p
    ensures forall i :: 0 <= i < |Chunks(p, m)| ==> 0 < |Chunks(p, m)[i]| <= Min(m, |p|)
    decreases |p|
  {
    if |p| > m {
      ChunksCover(p[m..], m);
      assert Chunks(p, m)[1..] == Chunks(p[m..], m);
    } else if p != [] {
      assert Chunks(p, m)[1..] == [];
    }
  }

  lemma {:induction false} ChunkCount(p: seq<byte>, m: nat)
    requires m > 0
    ensures |Chunks(p, m)| == (|p| + m - 1) / m
    decreases |p|
  {
    var a := |p| + m - 1;
    if p == [] {
      DivBelow(a, m);
    } else {
      DivStep(a, m);
      if |p| <= m {
        DivBelow(a - m, m);
      } else {
        ChunkCount(p[m..], m);
      }
    }
  }

  lemma DivBelow(a: nat, m: nat)
    requires a < m
    ensures a / m == 0
  {
  }

  lemma DivStep(a: nat, m: nat)
    requires m > 0 && a >= m
    ensures a / m == (a - m) / m + 1
  {
    var q, r := a / m, a % m;
    assert a - m == (q - 1) * m + r by {
      assert (q - 1) * m == q * m - m;
    }
    DivUnique(a - m, m, q - 1, r);
  }

  lemma DivUnique(a: nat, m: nat, q: int, r: nat)
    requires r < m && a == q * m + r
    ensures a / m == q
  {
    var k, s := a / m, a % m;
    assert a == k * m + s;
    if k > q {
      MulGap(k, q, m);
    } else if q > k {
      MulGap(q, k, m);
    }
  }

  lemma MulGap(k: int, q: int, m: nat)
    requires k > q
    ensures k * m >= q * m + m
  {
    assert k * m == q * m + (k - q) * m;
    assert (k - q) * m >= m by {
      var d := k - q - 1;
      assert (k - q) * m == d * m + m;
    }
  }

  lemma ChunksFitExactly(p: seq<byte>, m: nat)
    requires m > 0
    ensures AllFit(Chunks(p, m)) <==> m <= 65535 || |p| <= 65535
  {
    ChunksCover(p, m);
    if m > 65535 && |p| > 65535 {
      assert |Chunks(p, m)[0]| >= 65536;
    }
  }

  /**
   * Fixed framing is transparent to a payload exactly when the cell size leaves every
   * length representable, or the payload is short. Nothing checks the cell size.
   */
  lemma FixedRoundTripExactly(size: nat, p: seq<byte>, cells: seq<seq<byte>>)
    requires size > 2 && CellsOf(Fixed(size), cells, Chunks(p, size - 2))
    ensures Decode(Fixed(size), Flatten(cells)) == Decoded(p, Eof) <==> size <= 65537 || |p| <= 65535
  {
    var ds := Chunks(p, size - 2);
    ChunksFitExactly(p, size - 2);
    ChunksCover(p, size - 2);
    SeenAllExactly(ds);
    DecodeCells(Fixed(size), cells, ds);
  }

  /** What fixedCells lays out is a framing of its payload unless lengths wrap. */
  lemma ChunksFramed(size: nat, p: seq<byte>, cells: seq<seq<byte>>)
    requires 2 < size <= 65537 && CellsOf(Fixed(size), cells, Chunks(p, size - 2))
    ensures Framed(Fixed(size), p, cells, Chunks(p, size - 2))
  {
    ChunksCover(p, size - 2);
    ChunksFitExactly(p, size - 2);
  }
}
