/** The write side of a shaped connection: payloads and cover become cells in byte buffers. */
module CellWriter {
  import opened Bytes
  import opened Framing
  import opened Streams

  /** A Go slice of the flush buffer: buf[lo..hi]. */
  datatype Slice = Slice(lo: nat, hi: nat)

  ghost predicate InBounds(cells: seq<Slice>, n: nat) {
    forall i :: 0 <= i < |cells| ==> cells[i].lo <= cells[i].hi <= n
  }

  ghost function Cut(w: seq<byte>, cells: seq<Slice>): (r: seq<seq<byte>>)
    requires InBounds(cells, |w|)
    ensures |r| == |cells|
  {
    seq(|cells|, i requires 0 <= i < |cells| => w[cells[i].lo..cells[i].hi])
  }

  /** The stretch w holds the given cells back to back, carrying ds. */
  ghost predicate Laid(f: Framing, w: seq<byte>, cells: seq<Slice>, ds: seq<seq<byte>>) {
    && InBounds(cells, |w|)
    && CellsOf(f, Cut(w, cells), ds)
    && Flatten(Cut(w, cells)) == w
  }

  lemma LaidSnoc(f: Framing, w: seq<byte>, cells: seq<Slice>, ds: seq<seq<byte>>, cell: seq<byte>, d: seq<byte>)
    requires Laid(f, w, cells, ds) && CellOf(f, cell, d)
    ensures Laid(f, w + cell, cells + [Slice(|w|, |w| + |cell|)], ds + [d])
  {
    var cells' := cells + [Slice(|w|, |w| + |cell|)];
    var (a, b) := (Cut(w + cell, cells'), Cut(w, cells));
    forall i | 0 <= i < |cells'|
      ensures a[i] == (b + [cell])[i]
    {
      if i < |cells| {
        assert cells'[i] == cells[i];
        assert a[i] == w[cells[i].lo..cells[i].hi];
      }
    }
    assert a == b + [cell];
    FlattenSnoc(Cut(w, cells), cell);
  }

  function DataSize(drawn: int): nat {
    if drawn < 5 then 5 else if drawn > 65535 then 65535 else drawn
  }

  function CoverSize(drawn: int): nat {
    if drawn < 4 then 4 else if drawn > 65535 then 65535 else drawn
  }

  /** The payload capacity of n cells whose sizes are the draws from the k-th on. */
  ghost function Capacity(draw: nat -> int, k: nat, n: nat): nat {
    if n == 0 then 0 else Capacity(draw, k, n - 1) + (DataSize(draw(k + n - 1)) - 4)
  }

  lemma MulStep(i: nat, n: nat, size: nat)
    requires i < n
    ensures i * size + size == (i + 1) * size <= n * size
  {
    assert (n - i - 1) * size >= 0;
    assert n * size == (i + 1) * size + (n - i - 1) * size;
  }

  lemma NextChunk(chunks: seq<seq<byte>>, i: nat, d: seq<byte>, more: seq<seq<byte>>)
    requires i < |chunks| && chunks[i..] == [d] + more
    ensures chunks[..i + 1] == chunks[..i] + [d] && chunks[i + 1..] == more
  {
    assert chunks[i] == chunks[i..][0];
    assert chunks[i + 1..] == chunks[i..][1..];
  }

  class Writer {
    const f: Framing
    const draw: nat -> int  // the size sampler: its successive results
    var drawn: nat          // how many were drawn so far

    constructor (f: Framing, draw: nat -> int)
      requires f.Valid()
      ensures this.f == f && this.draw == draw && drawn == 0
    {
      this.f, this.draw, drawn := f, draw, 0;
    }

    /** Lays out one fixed cell carrying d in buf[lo..hi], touching nothing else. */
    static method PutFixed(buf: array<byte>, lo: nat, hi: nat, d: seq<byte>)
      requires lo + 2 < hi <= buf.Length && |d| <= hi - lo - 2
      modifies buf
      ensures FixedCell(hi - lo, buf[lo..hi], d)
      ensures forall i :: 0 <= i < buf.Length && (i < lo || i >= hi) ==> buf[i] == old(buf[i])
    {
      Put(buf, lo, U16(|d|));
      Put(buf, lo + 2, d);
      assert buf[lo..lo + 2] == U16(|d|);
      Fill(buf, lo + 2 + |d|, hi);
      assert buf[lo..lo + 2] == U16(|d|);
      assert buf[lo + 2..lo + 2 + |d|] == d;
      SliceOfSlice(buf[..], lo, hi, 0, 2);
      SliceOfSlice(buf[..], lo, hi, 2, 2 + |d|);
    }

    /** One pass of fixedCells: the cell for d goes right after the cells laid so far. */
    method AddCell(buf: array<byte>, at: nat, cells: seq<Slice>, ghost ds: seq<seq<byte>>, d: seq<byte>) returns (r: seq<Slice>)
      requires f.Fixed? && f.Valid() && |d| <= f.cellSize - 2
      requires at + f.cellSize <= buf.Length && Laid(f, buf[..at], cells, ds)
      modifies buf
      ensures r == cells + [Slice(at, at + f.cellSize)]
      ensures Laid(f, buf[..at + f.cellSize], r, ds + [d])
    {
      ghost var before := buf[..at];
      PutFixed(buf, at, at + f.cellSize, d);
      ghost var cell := buf[at..at + f.cellSize];
      assert buf[..at] == before;
      ghost var all := buf[..at + f.cellSize];
      assert all[..at] == before && all[at..] == cell;
      assert all == all[..at] + all[at..];
      LaidSnoc(f, before, cells, ds, cell, d);
      r := cells + [Slice(at, at + f.cellSize)];
    }

    /** fixedCells: one buffer of back-to-back cells, and the slices of it that are the cells. */
    method FixedCells(p: seq<byte>) returns (buf: array<byte>, cells: seq<Slice>)
      requires f.Fixed? && f.Valid()
      ensures fresh(buf) && Laid(f, buf[..], cells, Chunks(p, f.cellSize - 2))
      ensures f.cellSize <= 65537 ==> Framed(f, p, Cut(buf[..], cells), Chunks(p, f.cellSize - 2))
    {
      var size, m := f.cellSize, f.cellSize - 2;
      var n := (|p| + m - 1) / m;
      ChunkCount(p, m);
      buf := new byte[n * size];
      cells := [];
      var src := p;
      ghost var chunks := Chunks(p, m);
      for i := 0 to n
        invariant Progress(buf, i, n, src, cells, chunks)
      {
        cells, src := Pass(buf, i, n, src, cells, chunks);
      }
      assert chunks[..n] == chunks && buf[..n * size] == buf[..];
      if size <= 65537 {
        ChunksFramed(size, p, Cut(buf[..], cells));
      }
    }

    /** The first i of n cells are laid out, and src is what they did not take. */
    ghost predicate Progress(buf: array<byte>, i: nat, n: nat, src: seq<byte>, cells: seq<Slice>, chunks: seq<seq<byte>>)
      requires f.Fixed? && f.Valid()
      reads buf
    {
      && i <= n == |chunks|
      && 0 <= i * f.cellSize <= n * f.cellSize == buf.Length
      && Chunks(src, f.cellSize - 2) == chunks[i..]
      && Laid(f, buf[..i * f.cellSize], cells, chunks[..i])
    }

    /** One pass of the loop of fixedCells. */
    method Pass(buf: array<byte>, i: nat, n: nat, src: seq<byte>, cells: seq<Slice>, ghost chunks: seq<seq<byte>>)
      returns (cells': seq<Slice>, src': seq<byte>)
      requires f.Fixed? && f.Valid() && i < n && Progress(buf, i, n, src, cells, chunks)
      modifies buf
      ensures Progress(buf, i + 1, n, src', cells', chunks)
    {
      MulStep(i, n, f.cellSize);
      var d := src[..Min(|src|, f.cellSize - 2)];
      ChunksHead(src, f.cellSize - 2);
      src' := src[|d|..];
      NextChunk(chunks, i, d, Chunks(src', f.cellSize - 2));
      cells' := AddCell(buf, i * f.cellSize, cells, chunks[..i], d);
    }

    /** coverCell in fixed framing. */
    method FixedCover() returns (cell: array<byte>)
      requires f.Fixed? && f.Valid()
      ensures fresh(cell) && CellOf(f, cell[..], [])
    {
      cell := new byte[f.cellSize];
      PutFixed(cell, 0, f.cellSize, []);
      assert cell[..] == cell[0..f.cellSize];
    }

    /** A self-describing cell of s bytes carrying d. */
    static method NewMorph(s: nat, d: seq<byte>) returns (cell: array<byte>)
      requires 4 <= s <= 65535 && |d| <= s - 4
      ensures fresh(cell) && cell.Length == s && MorphCell(cell[..], d)
    {
      cell := new byte[s];
      Put(cell, 0, U16(s - 2));
      Put(cell, 2, U16(|d|));
      assert cell[0..2] == U16(s - 2);
      Put(cell, 4, d);
      assert cell[0..2] == U16(s - 2) && cell[2..4] == U16(|d|);
      Fill(cell, 4 + |d|, s);
      assert cell[..2] == cell[0..2] == U16(s - 2) && cell[2..4] == U16(|d|);
    }

    /**
     * morphCells: the sizes are the clamped consecutive draws, none skipped, stopping at the
     * first draw whose cumulative capacity covers the payload.
     */
    method MorphCells(p: seq<byte>) returns (cells: seq<seq<byte>>, ghost ds: seq<seq<byte>>)
      modifies `drawn
      ensures drawn == old(drawn) + |cells|
      ensures Framed(Morph, p, cells, ds)
      ensures forall i :: 0 <= i < |cells| ==>
                var x := draw(old(drawn) + i);
                && (x < 5 ==> |cells[i]| == 5)
                && (5 <= x <= 65535 ==> |cells[i]| == x)
                && (x > 65535 ==> |cells[i]| == 65535)
      ensures forall i :: 0 <= i < |cells| - 1 ==> |ds[i]| == |cells[i]| - 4
      ensures |p| <= Capacity(draw, old(drawn), |cells|)
      ensures forall k :: 0 <= k < |cells| ==> Capacity(draw, old(drawn), k) < |p|
    {
      cells, ds := [], [];
      var remaining := p;
      ghost var from := drawn;
      while remaining != []
        invariant Drawn(p, from, remaining, cells, ds)
        decreases |remaining|
      {
        var s := DataSize(draw(drawn));
        var d := remaining[..Min(s - 4, |remaining|)];
        var cell := NewMorph(s, d);
        DrawnSnoc(p, from, remaining, cells, ds, cell[..], d);
        drawn := drawn + 1;
        cells, ds := cells + [cell[..]], ds + [d];
        remaining := remaining[|d|..];
      }
    }

    /** The state of morphCells part way: all cells so far full while payload remains. */
    ghost predicate Drawn(p: seq<byte>, from: nat, remaining: seq<byte>, cells: seq<seq<byte>>, ds: seq<seq<byte>>)
      reads this
    {
      && drawn == from + |cells|
      && DrawnValues(p, from, remaining, cells, ds)
    }

    ghost predicate DrawnValues(p: seq<byte>, from: nat, remaining: seq<byte>, cells: seq<seq<byte>>, ds: seq<seq<byte>>) {
      && DrawnCells(p, from, remaining, cells, ds)
      && DrawnCapacity(|p|, |remaining|, from, |cells|)
    }

    /** The cells carry what is not remaining, have the drawn sizes, and are full but for the last. */
    ghost predicate DrawnCells(p: seq<byte>, from: nat, remaining: seq<byte>, cells: seq<seq<byte>>, ds: seq<seq<byte>>) {
      var n := |cells|;
      && CellsOf(Morph, cells, ds) && AllFit(ds)
      && Flatten(ds) + remaining == p
      && (forall i :: 0 <= i < n ==> |cells[i]| == DataSize(draw(from + i)) && 0 < |ds[i]|)
      && (forall i :: 0 <= i < n && (i < n - 1 || remaining != []) ==> |ds[i]| == |cells[i]| - 4)
    }

    /** n draws cover what is not remaining, and no fewer would have done. */
    ghost predicate DrawnCapacity(total: nat, remaining: nat, from: nat, n: nat) {
      && (remaining > 0 ==> total - remaining == Capacity(draw, from, n))
      && total - remaining <= Capacity(draw, from, n)
      && (forall k :: 0 <= k < n ==> Capacity(draw, from, k) < total)
    }

    lemma DrawnSnoc(p: seq<byte>, from: nat, remaining: seq<byte>, cells: seq<seq<byte>>, ds: seq<seq<byte>>,
                    cell: seq<byte>, d: seq<byte>)
      requires DrawnValues(p, from, remaining, cells, ds) && remaining != []
      requires MorphCell(cell, d) && |cell| == DataSize(draw(from + |cells|))
      requires d == remaining[..Min(|cell| - 4, |remaining|)]
      ensures DrawnValues(p, from, remaining[|d|..], cells + [cell], ds + [d])
    {
      FlattenSnoc(ds, d);
      assert remaining == d + remaining[|d|..];
      assert |p| >= |remaining|;
      CapacityGrows(|p|, |remaining|, from, |cells|, |d|);
    }

    lemma CapacityGrows(total: nat, remaining: nat, from: nat, n: nat, taken: nat)
      requires DrawnCapacity(total, remaining, from, n) && 0 < remaining <= total
      requires taken == Min(DataSize(draw(from + n)) - 4, remaining)
      ensures DrawnCapacity(total, remaining - taken, from, n + 1)
    {
      assert Capacity(draw, from, n + 1) == Capacity(draw, from, n) + (DataSize(draw(from + n)) - 4);
    }

    /** morphCoverCell. */
    method MorphCover() returns (cell: array<byte>)
      modifies `drawn
      ensures fresh(cell) && CellOf(Morph, cell[..], [])
      ensures drawn == old(drawn) + 1
      ensures var x := draw(old(drawn));
              && (x < 4 ==> cell.Length == 4)
              && (4 <= x <= 65535 ==> cell.Length == x)
              && (x > 65535 ==> cell.Length == 65535)
    {
      var s := CoverSize(draw(drawn));
      drawn := drawn + 1;
      cell := NewMorph(s, []);
    }
  }
}
