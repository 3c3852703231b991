/** The two halves of a shaped connection that run over byte buffers. */
module ShapedConn {
  import opened Bytes
  import opened Framing
  import opened Streams

  /** The stop a reader reports when io.ReadFull came back with n bytes, not all. */
  function Short(n: nat): Stop {
    if n == 0 then Eof else UnexpectedEof
  }

  /** What was got, with what the rest of the stream still carries, is what the input carries. */
  ghost predicate Accounts(f: Framing, input: seq<byte>, got: seq<byte>, rest: seq<byte>)
    requires f.Valid()
  {
    Decode(f, input) == Decoded(got + Decode(f, rest).bytes, Decode(f, rest).why)
  }

  lemma AccountsNext(f: Framing, input: seq<byte>, got: seq<byte>, rest: seq<byte>)
    requires f.Valid() && Accounts(f, input, got, rest)
    ensures Next(f, rest).Halt? ==> Decode(f, input) == Decoded(got, Next(f, rest).why)
    ensures Next(f, rest).Cell? ==>
              Accounts(f, input, got + Next(f, rest).data, Next(f, rest).rest)
  {
    if Next(f, rest).Cell? {
      PrependData(got, Next(f, rest).data, Decode(f, Next(f, rest).rest).bytes);
    }
  }

  /**
   * The read side. `pending` is the slice pend[lo..hi] and aliases the buffer the next
   * cell is read into: `cell` in fixed framing, `rbuf` in variable framing.
   */
  class Reader {
    const f: Framing
    const base: ByteSource
    var cell: array<byte>
    var rbuf: array<byte>
    var pend: array<byte>
    var lo: nat
    var hi: nat

    ghost const input: seq<byte>       // everything the base will ever deliver
    ghost var delivered: seq<byte>     // everything returned to the application
    ghost var served: nat               // successful Reads with room for a byte
    ghost var failed: bool             // some Read returned an error

    ghost predicate Valid()
      reads this, base, cell, rbuf, pend
    {
      && f.Valid()
      && (f.Fixed? ==> cell.Length == f.cellSize && pend == cell)
      && (f.Morph? ==> pend == rbuf)
      && cell != rbuf
      && lo <= hi <= pend.Length
      && served <= |delivered|
      && (!failed ==> Accounts(f, input, delivered + pend[lo..hi], base.data))
    }

    constructor (f: Framing, base: ByteSource)
      requires f.Valid()
      ensures Valid() && !failed && delivered == [] && served == 0
      ensures this.f == f && this.base == base && input == base.data
      ensures fresh(cell) && fresh(rbuf)
    {
      this.f, this.base := f, base;
      var c := new byte[if f.Fixed? then f.cellSize else 0];
      var r := new byte[0];
      cell, rbuf := c, r;
      pend := if f.Fixed? then c else r;
      lo, hi := 0, 0;
      input, delivered, served, failed := base.data, [], 0, false;
    }

    /** Until the first error: a prefix of what the stream carries, in at most as many Reads. */
    lemma NeverMoreThanCarried()
      requires Valid() && !failed
      ensures delivered <= Decode(f, input).bytes
      ensures served <= |Decode(f, input).bytes|
    {
      PrependData(delivered, pend[lo..hi], Decode(f, base.data).bytes);
    }

    /** The pass over the stream w read one cell, now pending, or stopped as w demands. */
    ghost predicate Passed(w: seq<byte>, stop: Option<Stop>)
      requires f.Valid()
      reads this, base, pend
    {
      && lo <= hi <= pend.Length
      && match Next(f, w)
         case Halt(why) => stop == Some(why) && lo == hi
         case Cell(data, rest) => stop == None && base.data == rest && pend[lo..hi] == data
    }

    /** The loop body of Read: one fixed cell into `cell`, once nothing points into it. */
    method FixedPass() returns (stop: Option<Stop>)
      requires f.Fixed? && f.Valid() && cell.Length == f.cellSize && pend == cell
      requires lo == hi <= pend.Length
      modifies `lo, `hi, base, cell
      ensures Passed(old(base.data), stop)
    {
      ghost var w := base.data;
      var n := ReadFull(base, cell, 0, f.cellSize);
      if n < f.cellSize {
        return Some(Short(n));
      }
      assert cell[..] == cell[0..n] == w[..n];
      var len := Val16(cell[..2]);
      assert len == Val16(w);
      if len > f.cellSize - 2 {
        return Some(Corrupt);
      }
      lo, hi := 2, 2 + len;
      assert cell[lo..hi] == cell[..][2..2 + len] == w[2..2 + len];
      return None;
    }

    /** Reads n bytes into `rbuf`, reallocating it when its capacity is smaller. */
    method ReadBody(n: nat) returns (got: nat)
      requires pend == rbuf && lo == hi <= pend.Length && cell != rbuf
      modifies `rbuf, `pend, `lo, `hi, base, rbuf
      ensures pend == rbuf && lo == hi <= pend.Length && n <= rbuf.Length
      ensures rbuf == old(rbuf) || fresh(rbuf)
      ensures got == Min(n, |old(base.data)|)
      ensures base.data == old(base.data)[got..] && rbuf[..got] == old(base.data)[..got]
    {
      if rbuf.Length < n {
        rbuf := new byte[n];
        pend, lo, hi := rbuf, 0, 0;  // nothing was pending: nothing points into the old buffer
      }
      got := ReadFull(base, rbuf, 0, n);
      assert rbuf[..got] == rbuf[0..got];
    }

    /** The loop body of readMorph: the length field, then the body it announces. */
    method MorphPass() returns (stop: Option<Stop>)
      requires f.Morph? && pend == rbuf && lo == hi <= pend.Length && cell != rbuf
      modifies `rbuf, `pend, `lo, `hi, base, rbuf
      ensures Passed(old(base.data), stop) && pend == rbuf
      ensures rbuf == old(rbuf) || fresh(rbuf)
    {
      ghost var w := base.data;
      var hdr := new byte[2];
      var got := ReadFull(base, hdr, 0, 2);
      if got < 2 {
        return Some(Short(got));
      }
      assert hdr[..] == hdr[0..2] == w[..2];
      var n := Val16(hdr[..]);
      assert n == Val16(w);
      if n < 2 {
        return Some(Corrupt);
      }
      got := ReadBody(n);
      ghost var body := w[2..];
      if got < n {
        return Some(Short(got));
      }
      var r := Val16(rbuf[..n]);
      assert rbuf[..n] == body[..n];
      assert r == Val16(body);
      if r > n - 2 {
        return Some(Corrupt);
      }
      lo, hi := 2, 2 + r;
      BodyParts(w, n, r);
      assert rbuf[lo..hi] == rbuf[..n][2..2 + r];
      return None;
    }

    lemma BodyParts(w: seq<byte>, n: nat, r: nat)
      requires 2 + n <= |w| && 2 + r <= n
      ensures w[2..][..n][2..2 + r] == w[4..4 + r] && w[2..][n..] == w[2 + n..]
    {
    }

    /** The loop of Read: passes over cells until some byte is pending or a pass stops. */
    method Await() returns (err: Option<Stop>)
      requires Valid()
      modifies `rbuf, `pend, `lo, `hi, `failed, base, cell, rbuf
      ensures Valid() && (rbuf == old(rbuf) || fresh(rbuf))
      ensures err.None? ==> lo < hi && failed == old(failed)
      ensures err.Some? ==> failed
      ensures err.Some? && !old(failed) ==>
                delivered == Decode(f, input).bytes && err.value == Decode(f, input).why
    {
      while lo == hi
        invariant Valid() && failed == old(failed)
        invariant rbuf == old(rbuf) || fresh(rbuf)
        decreases |base.data|
      {
        assert delivered + pend[lo..hi] == delivered;
        if !failed {
          AccountsNext(f, input, delivered, base.data);
        }
        if f.Fixed? {
          err := FixedPass();
        } else {
          err := MorphPass();
        }
        if err.Some? {
          failed := true;
          return;
        }
      }
      err := None;
    }

    /** Copies pending bytes out, as many as fit, and advances past them. */
    method Take(p: array<byte>) returns (n: nat)
      requires Valid() && p != pend && lo < hi
      modifies `lo, `delivered, `served, p
      ensures Valid()
      ensures n <= p.Length && p[n..] == old(p[n..])
      ensures delivered == old(delivered) + p[..n]
      ensures p.Length > 0 ==> n > 0 && served == old(served) + 1
    {
      n := Min(p.Length, hi - lo);
      CopyOut(p, pend, lo, n);
      Advance(n, p[..n]);
    }

    /** Moves n pending bytes to the delivered side. */
    method Advance(n: nat, ghost taken: seq<byte>)
      requires Valid() && n <= hi - lo && taken == pend[lo..lo + n]
      modifies `lo, `delivered, `served
      ensures Valid() && delivered == old(delivered) + taken
      ensures n > 0 ==> served == old(served) + 1
    {
      assert delivered + pend[lo..hi] == delivered + taken + pend[lo + n..hi];
      lo := lo + n;
      delivered := delivered + taken;
      served := if n > 0 then served + 1 else served;
    }

    /**
     * Read(p): cover cells are skipped, errors surface only when nothing is pending. On the
     * first error the application has received exactly what the stream carried before it.
     */
    method Read(p: array<byte>) returns (n: nat, err: Option<Stop>)
      requires Valid() && p != cell && p != rbuf
      modifies this, base, cell, rbuf, p
      ensures Valid() && cell == old(cell) && (rbuf == old(rbuf) || fresh(rbuf))
      ensures n <= p.Length && p[n..] == old(p[n..])
      ensures err.None? ==> delivered == old(delivered) + p[..n] && failed == old(failed)
      ensures err.None? && p.Length > 0 ==> n > 0 && served == old(served) + 1
      ensures err.Some? ==> n == 0 && failed && delivered == old(delivered)
      ensures err.Some? && !old(failed) ==>
                delivered == Decode(f, input).bytes && err.value == Decode(f, input).why
    {
      err := Await();
      assert p[..] == old(p[..]);
      n := 0;
      if err.None? {
        n := Take(p);
      }
    }
  }
}
