/**
 * The datagram codec: a salted, length-prefixed, padded frame under a position-wise
 * keystream, XORed in place, and the receiver's fixed 65535-byte buffer.
 */
module Packet {
  import opened Bytes
  import opened Streams
  import Framing

  const SALT_SIZE := 8
  const MAX_DATAGRAM := 65535
  const MAX_PAYLOAD := 65525

  /** The keystream byte for a salt and a position; AES-CTR under the shared key. */
  type KeyStream = (seq<byte>, nat) -> byte

  function XorBits(n: nat, a: nat, b: nat): nat {
    if n == 0 then 0 else (a % 2 + b % 2) % 2 + 2 * XorBits(n - 1, a / 2, b / 2)
  }

  lemma {:induction false} XorBound(n: nat, a: nat, b: nat, top: nat)
    requires top == Pow2(n)
    ensures XorBits(n, a, b) < top
  {
    if n > 0 {
      XorBound(n - 1, a / 2, b / 2, Pow2(n - 1));
    }
  }

  function Pow2(n: nat): nat {
    if n == 0 then 1 else 2 * Pow2(n - 1)
  }

  function Xor(a: byte, b: byte): byte {
    XorBound(8, a, b, 256);
    XorBits(8, a, b)
  }

  lemma {:induction false} XorBitsTwice(n: nat, a: nat, b: nat)
    requires a < Pow2(n)
    ensures XorBits(n, XorBits(n, a, b), b) == a
  {
    if n > 0 {
      var (x, low, high) := (XorBits(n, a, b), (a % 2 + b % 2) % 2, XorBits(n - 1, a / 2, b / 2));
      BitAndRest(low, high);
      XorBitsTwice(n - 1, a / 2, b / 2);
      OneBit(a % 2, b % 2);
      assert XorBits(n, x, b) == (low + b % 2) % 2 + 2 * XorBits(n - 1, high, b / 2);
    }
  }

  lemma BitAndRest(low: nat, high: nat)
    requires low < 2
    ensures (low + 2 * high) % 2 == low && (low + 2 * high) / 2 == high
  {
  }

  lemma OneBit(a: nat, b: nat)
    requires a < 2 && b < 2
    ensures ((a + b) % 2 + b) % 2 == a
  {
  }

  lemma XorTwice(a: byte, b: byte)
    ensures Xor(Xor(a, b), b) == a
  {
    XorBitsTwice(8, a, b);
  }

  /** Bit k of a. */
  function Bit(a: nat, k: nat): nat
    decreases k
  {
    if k == 0 then a % 2 else Bit(a / 2, k - 1)
  }

  lemma {:induction false} XorBitAt(n: nat, a: nat, b: nat, k: nat)
    requires k < n
    ensures Bit(XorBits(n, a, b), k) == (Bit(a, k) + Bit(b, k)) % 2
  {
    BitAndRest((a % 2 + b % 2) % 2, XorBits(n - 1, a / 2, b / 2));
    if k > 0 {
      XorBitAt(n - 1, a / 2, b / 2, k - 1);
    }
  }

  lemma {:induction false} BitIs(a: nat, k: nat)
    ensures Pow2(k) > 0 && Bit(a, k) == a / Pow2(k) % 2
    decreases k
  {
    if k > 0 {
      BitIs(a / 2, k - 1);
      HalfFirst(a, Pow2(k - 1));
    }
  }

  lemma HalfFirst(a: nat, m: nat)
    requires m > 0
    ensures a / 2 / m == a / (2 * m)
  {
    var (q, r) := (a / 2 / m, a / 2 % m);
    assert a / 2 == q * m + r;
    assert a == q * (2 * m) + (2 * r + a % 2) by {
      assert q * (2 * m) == 2 * (q * m);
    }
    Framing.DivUnique(a, 2 * m, q, 2 * r + a % 2);
  }

  /** Each bit of the result is the sum modulo 2 of the two bits in its place. */
  lemma XorBitwise(a: byte, b: byte, k: nat)
    requires k < 8
    ensures Pow2(k) > 0
    ensures Xor(a, b) / Pow2(k) % 2 == (a / Pow2(k) % 2 + b / Pow2(k) % 2) % 2
  {
    XorBitAt(8, a, b, k);
    BitIs(a, k);
    BitIs(b, k);
    BitIs(Xor(a, b), k);
  }

  /** The places of the bits. */
  lemma Places()
    ensures Pow2(0) == 1 && Pow2(1) == 2 && Pow2(2) == 4 && Pow2(3) == 8
    ensures Pow2(4) == 16 && Pow2(5) == 32 && Pow2(6) == 64 && Pow2(7) == 128
  {
  }

  /** XORKeyStream of one datagram's stream over a whole frame. */
  function XorStream(ks: KeyStream, salt: seq<byte>, frame: seq<byte>): (r: seq<byte>)
    ensures |r| == |frame|
  {
    seq<byte>(|frame|, i requires 0 <= i < |frame| => Xor(frame[i], ks(salt, i)))
  }

  lemma XorStreamTwice(ks: KeyStream, salt: seq<byte>, frame: seq<byte>)
    ensures XorStream(ks, salt, XorStream(ks, salt, frame)) == frame
  {
    var once := XorStream(ks, salt, frame);
    forall i | 0 <= i < |frame|
      ensures XorStream(ks, salt, once)[i] == frame[i]
    {
      XorTwice(frame[i], ks(salt, i));
    }
  }

  /** XORKeyStream(buf[lo..hi], buf[lo..hi]). */
  method XorInPlace(buf: array<byte>, lo: nat, hi: nat, ks: KeyStream, salt: seq<byte>)
    requires lo <= hi <= buf.Length
    modifies buf
    ensures buf[lo..hi] == XorStream(ks, salt, old(buf[lo..hi]))
    ensures buf[..lo] == old(buf[..lo]) && buf[hi..] == old(buf[hi..])
  {
    ghost var before := buf[lo..hi];
    for i := lo to hi
      invariant forall j :: lo <= j < i ==> buf[j] == Xor(before[j - lo], ks(salt, j - lo))
      invariant forall j :: i <= j < hi ==> buf[j] == before[j - lo]
      invariant buf[..lo] == old(buf[..lo]) && buf[hi..] == old(buf[hi..])
    {
      buf[i] := Xor(buf[i], ks(salt, i - lo));
    }
    forall j | 0 <= j < hi - lo
      ensures buf[lo..hi][j] == XorStream(ks, salt, before)[j]
    {
      assert buf[lo + j] == Xor(before[j], ks(salt, j));
    }
  }

  // ---------- sending ----------

  /** The frame grows to the drawn size, which is cut at 65535; the salt is not counted. */
  function FrameLen(n: nat, pad: Option<int>): nat {
    if pad.Some? && pad.value > 2 + n then (if pad.value > MAX_DATAGRAM then MAX_DATAGRAM else pad.value)
    else 2 + n
  }

  /** The datagram d, under the salt it starts with, is a frame of the right size carrying p. */
  ghost predicate Carries(ks: KeyStream, p: seq<byte>, pad: Option<int>, d: seq<byte>) {
    && |p| <= MAX_PAYLOAD && |d| == SALT_SIZE + FrameLen(|p|, pad)
    && var f := XorStream(ks, d[..SALT_SIZE], d[SALT_SIZE..]);
       f[..2] == U16(|p|) && f[2..2 + |p|] == p
  }

  /** The frame written out: how long it is, and each byte of header and payload. */
  ghost predicate OnTheWire(ks: KeyStream, p: seq<byte>, pad: Option<int>, d: seq<byte>) {
    && |p| <= 65525
    && (pad.None? || pad.value <= 2 + |p| ==> |d| == 10 + |p|)
    && (pad.Some? && 2 + |p| < pad.value <= 65535 ==> |d| == 8 + pad.value)
    && (pad.Some? && pad.value > 65535 ==> |d| == 65543)
    && d[8] == Xor(|p| / 256, ks(d[..8], 0)) && d[9] == Xor(|p| % 256, ks(d[..8], 1))
    && (forall j {:trigger p[j]} :: 0 <= j < |p| ==> d[10 + j] == Xor(p[j], ks(d[..8], 2 + j)))
  }

  lemma XorStreamAt(ks: KeyStream, salt: seq<byte>, frame: seq<byte>, i: nat, b: byte)
    requires i < |frame|
    ensures XorStream(ks, salt, frame)[i] == b <==> frame[i] == Xor(b, ks(salt, i))
  {
    XorTwice(frame[i], ks(salt, i));
    XorTwice(b, ks(salt, i));
  }

  /** What a datagram that carries p is, byte by byte. */
  lemma CarriesExactly(ks: KeyStream, p: seq<byte>, pad: Option<int>, d: seq<byte>)
    ensures Carries(ks, p, pad, d) <==> OnTheWire(ks, p, pad, d)
  {
    if |p| <= MAX_PAYLOAD && |d| == SALT_SIZE + FrameLen(|p|, pad) {
      var (salt, frame) := (d[..SALT_SIZE], d[SALT_SIZE..]);
      var f := XorStream(ks, salt, frame);
      XorStreamAt(ks, salt, frame, 0, |p| / 256);
      XorStreamAt(ks, salt, frame, 1, |p| % 256);
      forall j | 0 <= j < |p|
        ensures f[2 + j] == p[j] <==> d[10 + j] == Xor(p[j], ks(salt, 2 + j))
      {
        XorStreamAt(ks, salt, frame, 2 + j, p[j]);
      }
      HeadAndBody(f, p);
    }
  }

  lemma HeadAndBody(f: seq<byte>, p: seq<byte>)
    requires |f| >= 2 + |p| && |p| <= MAX_PAYLOAD
    ensures f[..2] == U16(|p|) && f[2..2 + |p|] == p <==>
              f[0] == |p| / 256 && f[1] == |p| % 256 && forall j {:trigger p[j]} :: 0 <= j < |p| ==> f[2 + j] == p[j]
  {
    if f[..2] == U16(|p|) && f[2..2 + |p|] == p {
      assert f[0] == f[..2][0] && f[1] == f[..2][1];
      assert forall j {:trigger p[j]} :: 0 <= j < |p| ==> f[2 + j] == f[2..2 + |p|][j];
    }
  }

  datatype SendError = TooBig | NoSalt | BaseFailed

  /**
   * WriteTo, for a pad size drawn (or none), an arbitrary fill, and a random source and base
   * socket that may fail: d is the datagram handed to the base, if it comes to that.
   */
  method WriteTo(ks: KeyStream, p: seq<byte>, pad: Option<int>, salted: bool, sent: bool)
    returns (n: nat, err: Option<SendError>, d: Option<array<byte>>)
    ensures err == Some(TooBig) <==> |p| > MAX_PAYLOAD
    ensures err == Some(NoSalt) <==> |p| <= MAX_PAYLOAD && !salted
    ensures err == Some(BaseFailed) <==> d.Some? && !sent
    ensures n == if err.None? then |p| else 0
    ensures d.Some? <==> |p| <= MAX_PAYLOAD && salted
    ensures d.Some? ==> fresh(d.value) && Carries(ks, p, pad, d.value[..])
  {
    if |p| > MAX_PAYLOAD {
      return 0, Some(TooBig), None;
    }
    if !salted {
      return 0, Some(NoSalt), None;
    }
    var out := new byte[SALT_SIZE + FrameLen(|p|, pad)];
    Fill(out, 0, SALT_SIZE);
    ghost var f: seq<byte>;
    f := PutFrame(out, p);
    var salt := out[..SALT_SIZE];
    XorInPlace(out, SALT_SIZE, out.Length, ks, salt);
    assert out[..SALT_SIZE] == salt;
    assert out[SALT_SIZE..] == out[SALT_SIZE..out.Length];
    XorStreamTwice(ks, salt, f);
    if !sent {
      return 0, Some(BaseFailed), Some(out);
    }
    return |p|, None, Some(out);
  }

  /** Header, payload and fill behind the salt. */
  method PutFrame(out: array<byte>, p: seq<byte>) returns (ghost f: seq<byte>)
    requires SALT_SIZE + 2 + |p| <= out.Length
    modifies out
    ensures out[..SALT_SIZE] == old(out[..SALT_SIZE])
    ensures f == out[SALT_SIZE..out.Length] && f[..2] == U16(|p|) && f[2..2 + |p|] == p
  {
    Put(out, SALT_SIZE, U16(|p|));
    Put(out, SALT_SIZE + 2, p);
    assert out[SALT_SIZE..SALT_SIZE + 2] == U16(|p|);
    Fill(out, SALT_SIZE + 2 + |p|, out.Length);
    assert out[SALT_SIZE..SALT_SIZE + 2] == U16(|p|);
    f := out[SALT_SIZE..out.Length];
    SliceOfSlice(out[..], SALT_SIZE, out.Length, 0, 2);
    SliceOfSlice(out[..], SALT_SIZE, out.Length, 2, 2 + |p|);
  }

  // ---------- receiving ----------

  datatype Received = Data(payload: seq<byte>) | ShortPacket | BadLength

  /** What a receiver makes of any datagram whatever; it sees its first 65535 bytes. */
  function Receive(ks: KeyStream, d: seq<byte>): Received {
    var w := d[..Min(|d|, MAX_DATAGRAM)];
    if |w| < 10 then ShortPacket
    else
      var f := XorStream(ks, w[..SALT_SIZE], w[SALT_SIZE..]);
      var n := Val16(f);
      if n > |f| - 2 then BadLength else Data(f[2..2 + n])
  }

  /** The length field and the payload of a datagram as the keystream reveals them. */
  ghost predicate Reveals(ks: KeyStream, w: seq<byte>, q: seq<byte>)
    requires |w| >= 10
  {
    && |q| == Xor(w[8], ks(w[..8], 0)) * 256 + Xor(w[9], ks(w[..8], 1)) <= |w| - 10
    && (forall j {:trigger q[j]} :: 0 <= j < |q| ==> q[j] == Xor(w[10 + j], ks(w[..8], 2 + j)))
  }

  /** Every datagram is of exactly one kind, by the first 65535 of its bytes. */
  lemma ReceiveExactly(ks: KeyStream, d: seq<byte>, q: seq<byte>)
    ensures Receive(ks, d) == ShortPacket <==> |d| < 10
    ensures |d| >= 10 ==>
              var w := d[..Min(|d|, 65535)];
              && (Receive(ks, d) == BadLength <==>
                    Xor(w[8], ks(w[..8], 0)) * 256 + Xor(w[9], ks(w[..8], 1)) > |w| - 10)
              && (Receive(ks, d) == Data(q) <==> Reveals(ks, w, q))
  {
    if |d| >= 10 {
      var w := d[..Min(|d|, MAX_DATAGRAM)];
      var f := XorStream(ks, w[..SALT_SIZE], w[SALT_SIZE..]);
      assert f[0] == Xor(w[8], ks(w[..8], 0)) && f[1] == Xor(w[9], ks(w[..8], 1));
      var n := Val16(f);
      if n <= |f| - 2 {
        var body := f[2..2 + n];
        assert forall j {:trigger body[j]} :: 0 <= j < n ==> body[j] == f[2 + j] == Xor(w[10 + j], ks(w[..8], 2 + j));
        if Reveals(ks, w, q) {
          assert q == body;
        }
      }
    }
  }

  /** The base socket: a datagram is cut to the buffer it is read into. */
  method Recv(d: seq<byte>, buf: array<byte>) returns (n: nat)
    modifies buf
    ensures n == Min(|d|, buf.Length) && buf[..n] == d[..n]
  {
    n := Min(|d|, buf.Length);
    forall i | 0 <= i < n {
      buf[i] := d[i];
    }
  }

  /** ReadFrom into p through a pooled buffer holding leftovers: excess payload is dropped. */
  method ReadFrom(ks: KeyStream, d: seq<byte>, buf: array<byte>, p: array<byte>) returns (k: nat, r: Received)
    requires buf.Length == MAX_DATAGRAM && p != buf
    modifies buf, p
    ensures r == Receive(ks, d)
    ensures r.Data? ==> k == Min(p.Length, |r.payload|) && p[..k] == r.payload[..k] && p[k..] == old(p[k..])
    ensures !r.Data? ==> k == 0 && p[..] == old(p[..])
  {
    var n := Recv(d, buf);
    if n < 10 {
      return 0, ShortPacket;
    }
    ghost var w := buf[..n];
    var salt := buf[..SALT_SIZE];
    assert salt == w[..SALT_SIZE] && buf[SALT_SIZE..n] == w[SALT_SIZE..];
    XorInPlace(buf, SALT_SIZE, n, ks, salt);
    var frame := buf[SALT_SIZE..n];
    var realLen := Val16(frame);
    if realLen > |frame| - 2 {
      return 0, BadLength;
    }
    var payload := frame[2..2 + realLen];
    k := Min(p.Length, realLen);
    forall i | 0 <= i < k {
      p[i] := payload[i];
    }
    return k, Data(payload);
  }

  /**
   * Every payload that is sent is received, whatever the pad, the salt and the fill: also
   * when the datagram is longer than the receiver's buffer and loses its end.
   */
  lemma DatagramRoundTrip(ks: KeyStream, p: seq<byte>, pad: Option<int>, d: seq<byte>)
    requires Carries(ks, p, pad, d)
    ensures Receive(ks, d) == Data(p)
  {
    var n := Min(|d|, MAX_DATAGRAM);
    var w := d[..n];
    var f := XorStream(ks, d[..SALT_SIZE], d[SALT_SIZE..]);
    assert w[..SALT_SIZE] == d[..SALT_SIZE];
    assert w[SALT_SIZE..] == d[SALT_SIZE..][..n - SALT_SIZE];
    var g := XorStream(ks, w[..SALT_SIZE], w[SALT_SIZE..]);
    assert g == f[..n - SALT_SIZE];
    assert g[0] == f[..2][0] && g[1] == f[..2][1];
    Val16OfU16(|p|);
    assert g[2..2 + |p|] == f[2..2 + |p|];
  }

  /** The clamp is on the frame: a datagram can be eight bytes longer than the receiver takes. */
  lemma PaddedBeyondTheBuffer(ks: KeyStream, p: seq<byte>, d: seq<byte>)
    requires Carries(ks, p, Some(MAX_DATAGRAM), d)
    ensures |d| == MAX_DATAGRAM + SALT_SIZE && Receive(ks, d) == Data(p)
  {
    DatagramRoundTrip(ks, p, Some(MAX_DATAGRAM), d);
  }
}
