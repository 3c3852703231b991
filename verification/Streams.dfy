/**
 * The read half of a base connection, io.ReadFull over it, and an arbitrary fill.
 * How a connection chunks its bytes and what a fill writes are nondeterministic.
 */
module Streams {
  import opened Bytes

  /** A finite incoming byte stream; once `data` is empty every Read reports EOF. */
  class ByteSource {
    var data: seq<byte>  // the bytes not read yet

    constructor (bytes: seq<byte>)
      ensures data == bytes
    {
      data := bytes;
    }

    /** Reads some bytes into buf[lo..hi], at least one unless there is no room or no data. */
    method Read(buf: array<byte>, lo: nat, hi: nat) returns (n: nat)
      requires lo <= hi <= buf.Length
      modifies this, buf
      ensures n <= hi - lo && n <= |old(data)|
      ensures lo < hi && old(data) != [] ==> n > 0
      ensures data == old(data)[n..]
      ensures buf[lo..lo + n] == old(data)[..n]
      ensures buf[..lo] == old(buf[..lo]) && buf[lo + n..] == old(buf[lo + n..])
    {
      var most := Min(hi - lo, |data|);
      n :| n <= most && (most > 0 ==> n > 0);
      forall i | 0 <= i < n {
        buf[lo + i] := data[i];
      }
      data := data[n..];
    }
  }

  /** One more Read of k bytes, behind the n bytes of w that a buffer already holds at lo. */
  lemma ReadMore(start: seq<byte>, before: seq<byte>, after: seq<byte>, w: seq<byte>, lo: nat, n: nat, k: nat)
    requires |after| == |before| == |start| && lo + n + k <= |start| && n + k <= |w|
    requires before == start[..lo] + w[..n] + start[lo + n..]
    requires after[..lo + n] == before[..lo + n] && after[lo + n + k..] == before[lo + n + k..]
    requires after[lo + n..lo + n + k] == w[n..][..k]
    ensures after == start[..lo] + w[..n + k] + start[lo + n + k..]
  {
    var (at, to) := (lo + n, lo + n + k);
    assert before[..at] == start[..lo] + w[..n];
    assert before[to..] == start[to..];
    Mended(after, start[..lo], w, n, k, start[to..]);
  }

  lemma Mended(after: seq<byte>, front: seq<byte>, w: seq<byte>, n: nat, k: nat, back: seq<byte>)
    requires n + k <= |w| && |after| == |front| + n + k + |back|
    requires var at := |front| + n;
             after[..at] == front + w[..n] && after[at..at + k] == w[n..][..k] && after[at + k..] == back
    ensures after == front + w[..n + k] + back
  {
    var at := |front| + n;
    assert after == after[..at] + after[at..at + k] + after[at + k..];
    assert w[..n] + w[n..][..k] == w[..n + k];
  }

  /** io.ReadFull: n == hi - lo is success, n == 0 is EOF, anything between is unexpected EOF. */
  method ReadFull(src: ByteSource, buf: array<byte>, lo: nat, hi: nat) returns (n: nat)
    requires lo <= hi <= buf.Length
    modifies src, buf
    ensures n == Min(hi - lo, |old(src.data)|)
    ensures src.data == old(src.data)[n..]
    ensures buf[lo..lo + n] == old(src.data)[..n]
    ensures buf[..lo] == old(buf[..lo]) && buf[lo + n..] == old(buf[lo + n..])
  {
    ghost var (w, start) := (src.data, buf[..]);
    n := 0;
    while n < hi - lo && src.data != []
      invariant n <= hi - lo && n <= |w| && src.data == w[n..]
      invariant buf[..] == start[..lo] + w[..n] + start[lo + n..]
      decreases |src.data|
    {
      ghost var before := buf[..];
      var k := src.Read(buf, lo + n, hi);
      ReadMore(start, before, buf[..], w, lo, n, k);
      n := n + k;
    }
  }

  /** A FillFunc: arbitrary bytes, written to exactly the slice it is given. */
  method Fill(buf: array<byte>, lo: nat, hi: nat)
    requires lo <= hi <= buf.Length
    modifies buf
    ensures forall i :: 0 <= i < buf.Length && (i < lo || i >= hi) ==> buf[i] == old(buf[i])
  {
    var i := lo;
    while i < hi
      invariant lo <= i <= hi
      invariant forall j :: 0 <= j < buf.Length && (j < lo || j >= hi) ==> buf[j] == old(buf[j])
    {
      buf[i] := *;
      i := i + 1;
    }
  }

  /** Stores s at buf[at..], as PutUint16 and copy do. */
  method Put(buf: array<byte>, at: nat, s: seq<byte>)
    requires at + |s| <= buf.Length
    modifies buf
    ensures buf[at..at + |s|] == s
    ensures forall i :: 0 <= i < buf.Length && (i < at || i >= at + |s|) ==> buf[i] == old(buf[i])
  {
    forall i | 0 <= i < |s| {
      buf[at + i] := s[i];
    }
  }

  /** copy(dst, src[from..from + n]). */
  method CopyOut(dst: array<byte>, src: array<byte>, from: nat, n: nat)
    requires dst != src && n <= dst.Length && from + n <= src.Length
    modifies dst
    ensures dst[..n] == src[from..from + n] && dst[n..] == old(dst[n..])
  {
    forall i | 0 <= i < n {
      dst[i] := src[from + i];
    }
  }
}
