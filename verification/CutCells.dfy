/** What a receiver makes of a cell whose write was cut, and of the cells that follow it. */
module CutCells {
  import opened Bytes
  import opened Framing

  /** Nothing of a cut cell is decoded; its start is whole only if empty, or if nothing is missing. */
  lemma PartWhole(f: Framing, c: seq<byte>, d: seq<byte>, part: seq<byte>)
    requires f.Valid() && CellOf(f, c, d) && |d| < 65536 && part <= c
    ensures Whole(f, part) <==> part == [] || part == c
    ensures Decode(f, part).bytes == if part == c then d else []
  {
    OneCell(f, c, d);
    if part != c {
      CutHalts(f, c, d, part);
    }
  }

  lemma CutHalts(f: Framing, c: seq<byte>, d: seq<byte>, part: seq<byte>)
    requires f.Valid() && CellOf(f, c, d) && part <= c && part != c
    ensures Next(f, part).Halt?
  {
    if f.Morph? && |part| >= 2 {
      Val16OfU16(|c| - 2);
      assert part[..2] == c[..2] == U16(|c| - 2);
      assert part[0] == c[..2][0] && part[1] == c[..2][1];
    }
  }

  /** A cell carrying the one byte x. */
  function OneByteCell(f: Framing, x: byte): seq<byte>
    requires f.Valid()
  {
    match f
    case Fixed(size) => [0, 1, x] + seq(size - 3, _ => 0 as byte)
    case Morph => [0, 3, 0, 1, x]
  }

  lemma OneByteCarries(f: Framing, x: byte)
    requires f.Valid()
    ensures CellOf(f, OneByteCell(f, x), [x])
    ensures Framed(f, [x], [OneByteCell(f, x)], [[x]])
  {
    assert CellOf(f, OneByteCell(f, x), [x]);
    assert Flatten([[x]]) == [x] + Flatten<byte>([]);
  }

  /** A byte that the receiver of the cut cell will not take for its first. */
  function OtherByte(f: Framing, part: seq<byte>): byte {
    var at := if f.Fixed? then 2 else 4;
    ((if |part| > at then part[at] as int else 0) + 1) % 256
  }

  lemma OtherByteDiffers(f: Framing, part: seq<byte>)
    ensures var (x, at) := (OtherByte(f, part), if f.Fixed? then 2 else 4);
            if |part| > at then x != part[at] else x == 1
  {
  }

  lemma LastCell(f: Framing, w: seq<byte>)
    requires f.Valid() && Next(f, w).Cell? && Decode(f, Next(f, w).rest).bytes == []
    ensures Decode(f, w).bytes == Next(f, w).data
  {
  }

  lemma FixedMisread(size: nat, c: seq<byte>, d: seq<byte>, part: seq<byte>)
    requires FixedCell(size, c, d) && part <= c && 0 < |part| < size
    ensures var x := OtherByte(Fixed(size), part);
            Decode(Fixed(size), part + OneByteCell(Fixed(size), x)).bytes != [x]
  {
    var f := Fixed(size);
    var x := OtherByte(f, part);
    var o := OneByteCell(f, x);
    var w := part + o;
    if Next(f, w).Cell? {
      LastCell(f, w);
      assert |part| == 1 ==> w[1] == o[0];
      assert |part| == 2 ==> w[2] == o[0];
      OtherByteDiffers(f, part);
      if |Next(f, w).data| == 1 {
        FixedByte(size, w);
      }
    }
  }

  lemma FixedByte(size: nat, w: seq<byte>)
    requires size > 2 && Next(Fixed(size), w).Cell? && |Next(Fixed(size), w).data| == 1
    ensures w[0] == 0 && w[1] == 1 && Next(Fixed(size), w).data[0] == w[2]
  {
  }

  /** The rest of a one-byte cell, started in the middle, carries nothing. */
  lemma MorphRest(x: byte, g: nat)
    requires 1 <= g <= 5
    ensures Decode(Morph, OneByteCell(Morph, x)[g..]).bytes == []
  {
    var w := OneByteCell(Morph, x)[g..];
    assert g == 1 ==> w[0] == 3;
    assert g == 2 ==> w[0] == 0 && w[1] == 1;
    assert Next(Morph, w).Halt?;
  }

  lemma MorphLength(c: seq<byte>, d: seq<byte>, w: seq<byte>)
    requires MorphCell(c, d) && |w| >= 2 && w[..2] == c[..2]
    ensures Val16(w) == |c| - 2
  {
    Val16OfU16(|c| - 2);
    assert w[0] == w[..2][0] && w[1] == w[..2][1];
  }

  lemma MorphByte(w: seq<byte>)
    requires Next(Morph, w).Cell? && |Next(Morph, w).data| == 1
    ensures |w| >= 5 && w[2] == 0 && w[3] == 1 && Next(Morph, w).data[0] == w[4]
  {
    assert w[2..][0] == w[2] && w[2..][1] == w[3];
  }

  /** The cell made of the cut one and some of the next is the last. */
  lemma MorphEnds(c: seq<byte>, d: seq<byte>, part: seq<byte>, x: byte)
    requires MorphCell(c, d) && part <= c && 2 <= |part| < |c|
    requires Next(Morph, part + OneByteCell(Morph, x)).Cell?
    ensures Decode(Morph, Next(Morph, part + OneByteCell(Morph, x)).rest).bytes == []
  {
    var (w, g) := (part + OneByteCell(Morph, x), |c| - |part|);
    assert w[..2] == part[..2] == c[..2];
    MorphLength(c, d, w);
    assert Next(Morph, w).rest == w[|c|..];
    assert w[|c|..] == OneByteCell(Morph, x)[g..];
    MorphRest(x, g);
  }

  /** And it does not carry x. */
  lemma MorphOther(part: seq<byte>)
    requires |part| >= 2 && Next(Morph, part + OneByteCell(Morph, OtherByte(Morph, part))).Cell?
    ensures var x := OtherByte(Morph, part);
            Next(Morph, part + OneByteCell(Morph, x)).data != [x]
  {
    var (x, q) := (OtherByte(Morph, part), |part|);
    var o := OneByteCell(Morph, x);
    var w := part + o;
    assert q == 2 ==> w[3] == o[1];
    assert q == 3 ==> w[3] == o[0];
    assert q == 4 ==> w[4] == o[0];
    OtherByteDiffers(Morph, part);
    if |Next(Morph, w).data| == 1 {
      MorphByte(w);
    }
  }

  lemma MorphMisread(c: seq<byte>, d: seq<byte>, part: seq<byte>)
    requires MorphCell(c, d) && part <= c && 0 < |part| < |c|
    ensures var x := OtherByte(Morph, part);
            Decode(Morph, part + OneByteCell(Morph, x)).bytes != [x]
  {
    var x := OtherByte(Morph, part);
    var w := part + OneByteCell(Morph, x);
    if |part| == 1 {
      assert w[1] == OneByteCell(Morph, x)[0];
      assert Next(Morph, w).Halt?;
    } else if Next(Morph, w).Cell? {
      MorphEnds(c, d, part, x);
      MorphOther(part);
      LastCell(Morph, w);
    }
  }

  /** One well-formed cell after a cut is misread. */
  lemma OneByteMisread(f: Framing, c: seq<byte>, d: seq<byte>, part: seq<byte>)
    requires f.Valid() && CellOf(f, c, d) && |d| < 65536 && part <= c && part != [] && part != c
    ensures var x := OtherByte(f, part);
            Decode(f, part + OneByteCell(f, x)).bytes != [x]
  {
    match f
    case Fixed(size) => FixedMisread(size, c, d, part);
    case Morph => MorphMisread(c, d, part);
  }

  lemma Misread(f: Framing, w: seq<byte>, tail: seq<byte>, x: byte)
    requires f.Valid() && Whole(f, w) && Decode(f, tail).bytes != [x]
    ensures Decode(f, w + tail).bytes != Decode(f, w).bytes + [x]
  {
    DecodeConcat(f, w, tail);
    var (a, b) := (Decode(f, w).bytes, Decode(f, tail).bytes);
    assert (a + b)[|a|..] == b && (a + [x])[|a|..] == [x];
  }

  /** What the cells carry is received behind this start of the stream. */
  ghost predicate ReadsOn(f: Framing, start: seq<byte>, cells: seq<seq<byte>>, ds: seq<seq<byte>>)
    requires f.Valid()
  {
    CellsOf(f, cells, ds) && AllFit(ds) ==>
      Decode(f, start + Flatten(cells)).bytes == Decode(f, start).bytes + Flatten(ds)
  }

  /**
   * Decoding goes on past a failed write whatever cells follow if and only if the write left
   * nothing on the wire, or the whole cell.
   */
  lemma CutExactly(f: Framing, c: seq<byte>, d: seq<byte>, part: seq<byte>)
    requires f.Valid() && CellOf(f, c, d) && |d| < 65536 && part <= c
    ensures part == [] || part == c <==> forall cells, ds :: ReadsOn(f, part, cells, ds)
  {
    PartWhole(f, c, d, part);
    if part == [] || part == c {
      forall cells, ds
        ensures ReadsOn(f, part, cells, ds)
      {
        if CellsOf(f, cells, ds) && AllFit(ds) {
          FlushDecodes(f, cells, ds);
          DecodeConcat(f, part, Flatten(cells));
        }
      }
    } else {
      var x := OtherByte(f, part);
      var o := OneByteCell(f, x);
      OneByteCarries(f, x);
      OneByteMisread(f, c, d, part);
      assert Flatten([o]) == o + Flatten<byte>([]) == o;
      assert !ReadsOn(f, part, [o], [[x]]);
    }
  }
}
