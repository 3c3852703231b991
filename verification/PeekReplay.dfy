/**
 * Peeking a ClientHello off a raw connection and replaying it, on every path of the two
 * listeners. TLS is abstracted to what it is given to read and, if its handshake succeeds,
 * the stream it decrypts.
 */
module PeekReplay {
  import opened Bytes
  import opened Streams
  import opened ClientHello
  import opened HelloGrammar
  import opened HelloMeaning
  import RealitySni
  import opened Auth

  datatype PeekError = Truncated | PeekNotTLS | PeekBadHello

  datatype Peeked = Peeked(bytes: seq<byte>, err: Option<PeekError>)

  /** What peeking one record takes off the stream w; never a byte past the record. */
  function Peek(w: seq<byte>): Peeked {
    if |w| < 5 then Peeked(w, Some(Truncated))
    else if w[0] != 0x16 then Peeked(w[..5], Some(PeekNotTLS))
    else
      var n := Val16(w[3..]);
      if n < 4 || n > 16384 then Peeked(w[..5], Some(PeekBadHello))
      else if |w| < 5 + n then Peeked(w, Some(Truncated))
      else Peeked(w[..5 + n], None)
  }

  lemma Rejoined(w: seq<byte>, n: nat, k: nat)
    requires n + k <= |w|
    ensures w[..n] + w[n..][..k] == w[..n + k] && w[n..][k..] == w[n + k..]
  {
  }

  /** peekRecord: whatever was read is returned, on every branch. */
  method PeekRecord(src: ByteSource) returns (r: Peeked)
    modifies src
    ensures r == Peek(old(src.data)) && r.bytes + src.data == old(src.data)
  {
    ghost var w := src.data;
    var hdr := new byte[5];
    var got := ReadFull(src, hdr, 0, 5);
    assert hdr[0..got] == w[..got];
    if got < 5 {
      return Peeked(hdr[0..got], Some(Truncated));
    }
    if hdr[0] != 0x16 {
      return Peeked(hdr[0..5], Some(PeekNotTLS));
    }
    var n := Val16(hdr[3..5]);
    assert w[..5][0] == w[0] && w[..5][3] == w[3] && w[..5][4] == w[4];
    assert n == Val16(w[3..]);
    if n < 4 || n > 16384 {
      return Peeked(hdr[0..5], Some(PeekBadHello));
    }
    var body := new byte[n];
    var more := ReadFull(src, body, 0, n);
    var bytes := hdr[0..5] + body[0..more];
    assert bytes == w[..5] + w[5..][..more];
    Rejoined(w, 5, more);
    assert more < n ==> w[..5 + more] == w;
    assert w[..5 + more] + w[5 + more..] == w;
    return Peeked(bytes, if more < n then Some(Truncated) else None);
  }

  /** prefixConn: the peeked bytes, then the connection they came from. */
  class PrefixConn {
    const conn: ByteSource
    var prefix: seq<byte>

    constructor (conn: ByteSource, prefix: seq<byte>)
      ensures this.conn == conn && this.prefix == prefix
    {
      this.conn, this.prefix := conn, prefix;
    }

    /** Everything a reader can still obtain. */
    ghost function Stream(): seq<byte>
      reads this, conn
    {
      prefix + conn.data
    }

    method Read(p: array<byte>) returns (n: nat)
      modifies `prefix, conn, p
      ensures n <= p.Length && p[n..] == old(p[n..])
      ensures old(Stream()) == p[..n] + Stream()
      ensures p.Length > 0 && old(Stream()) != [] ==> n > 0
    {
      if |prefix| > 0 {
        n := Min(p.Length, |prefix|);
        forall i | 0 <= i < n {
          p[i] := prefix[i];
        }
        assert p[..n] == prefix[..n];
        assert prefix == prefix[..n] + prefix[n..];
        prefix := prefix[n..];
      } else {
        n := conn.Read(p, 0, p.Length);
        assert p[..n] == p[0..0 + n] == old(conn.data)[..n];
      }
    }
  }

  /** The write half of a destination; unless it is sound, a write may fail after some bytes. */
  class Sink {
    const sound: bool
    var received: seq<byte>

    constructor (sound: bool)
      ensures this.sound == sound && received == []
    {
      this.sound, received := sound, [];
    }

    method Write(b: seq<byte>) returns (ok: bool)
      modifies this
      ensures old(received) <= received <= old(received) + b
      ensures ok <==> received == old(received) + b
      ensures sound ==> ok
    {
      var k: nat :| k <= |b| && (sound ==> k == |b|);
      received := received + b[..k];
      ok := k == |b|;
    }
  }

  /**
   * io.Copy from client to dst, until the client ends, a write fails, or the other direction
   * closes both, after some number of passes or never: dst gets a prefix of the client's stream,
   * and all of it at the client's end, which is reached unless something intervenes.
   */
  method Copy(dst: Sink, client: PrefixConn, passes: Option<nat>) returns (atEnd: bool)
    modifies dst, client`prefix, client.conn
    ensures old(dst.received) <= dst.received <= old(dst.received) + old(client.Stream())
    ensures atEnd ==> dst.received == old(dst.received) + old(client.Stream())
    ensures passes.None? && dst.sound ==> atEnd
  {
    var buf := new byte[32768];
    ghost var before := dst.received;
    ghost var all := dst.received + client.Stream();
    var pass := 0;
    while true
      invariant fresh(buf) && buf.Length == 32768
      invariant before <= dst.received
      invariant dst.received + client.Stream() == all
      decreases |client.Stream()|
    {
      if passes.Some? && pass == passes.value {
        return false;
      }
      ghost var rest := client.Stream();
      var n := client.Read(buf);
      if n == 0 {
        assert rest == [];
        return true;
      }
      ghost var sent := dst.received;
      assert sent + rest == sent + buf[..n] + client.Stream();
      var ok := dst.Write(buf[..n]);
      if !ok {
        assert dst.received <= sent + buf[..n] <= all;
        return false;
      }
      pass := pass + 1;
    }
  }

  // ---------- xreality ----------

  datatype Route = Terminate(authKey: seq<byte>) | Passthrough

  function RouteOf(cr: Crypto, sv: Server, stream: seq<byte>): Route {
    var p := Peek(stream);
    if p.err.Some? then Passthrough
    else
      match Authenticate(cr, sv, p.bytes)
      case NotAHello(_) => Passthrough
      case Decided(d) => if d.authKey.Some? then Terminate(d.authKey.value) else Passthrough
  }

  /** The stream starts with a whole handshake record of a plausible length n. */
  ghost predicate StartsWithRecord(w: seq<byte>, n: nat) {
    && |w| >= 5 + n && w[0] == 0x16 && 4 <= n <= 16384
    && w[3] as int * 256 + w[4] as int == n
  }

  /** What peeking makes of any stream: the record, or why there is none and how much was read. */
  lemma PeekExactly(w: seq<byte>)
    ensures Peek(w).err.None? <==> exists n :: StartsWithRecord(w, n)
    ensures forall n :: StartsWithRecord(w, n) ==> Peek(w).bytes == w[..5 + n]
    ensures Peek(w).err == Some(PeekNotTLS) <==> |w| >= 5 && w[0] != 0x16
    ensures Peek(w).err == Some(PeekBadHello) <==>
              |w| >= 5 && w[0] == 0x16 && !(4 <= w[3] as int * 256 + w[4] as int <= 16384)
    ensures Peek(w).err == Some(PeekNotTLS) || Peek(w).err == Some(PeekBadHello) ==> Peek(w).bytes == w[..5]
    ensures Peek(w).err == Some(Truncated) ==> Peek(w).bytes == w
  {
    if |w| >= 5 {
      assert Val16(w[3..]) == w[3] as int * 256 + w[4] as int;
      assert Peek(w).err.None? ==> StartsWithRecord(w, Val16(w[3..]));
    }
  }

  /** The routing of any stream: terminated with k exactly when its first record entitles it to k. */
  lemma RoutedExactly(cr: Crypto, sv: Server, stream: seq<byte>, k: seq<byte>)
    requires cr.Laws() && sv.skew <= MAX_DURATION
    ensures RouteOf(cr, sv, stream) == Terminate(k) <==>
              exists n, secret, pt :: EntitledStream(cr, sv, stream, n, secret, pt, k)
  {
    PeekExactly(stream);
    if Peek(stream).err.None? {
      var n :| StartsWithRecord(stream, n);
      AuthenticatesExactly(cr, sv, stream[..5 + n], k);
      if RouteOf(cr, sv, stream) == Terminate(k) {
        var secret, pt :| Entitled(cr, sv, Parse(stream[..5 + n]).info, secret, pt, k);
        assert EntitledStream(cr, sv, stream, n, secret, pt, k);
      }
      forall m, secret, pt | EntitledStream(cr, sv, stream, m, secret, pt, k)
        ensures RouteOf(cr, sv, stream) == Terminate(k)
      {
        assert m == n;
      }
    }
  }

  ghost predicate EntitledStream(cr: Crypto, sv: Server, w: seq<byte>, n: nat, secret: seq<byte>, pt: seq<byte>, k: seq<byte>) {
    && StartsWithRecord(w, n) && Parse(w[..5 + n]).Ok?
    && Entitled(cr, sv, Parse(w[..5 + n]).info, secret, pt, k)
  }

  /**
   * handle, up to the hand-off: on every branch TLS or the spliced destination is given the
   * client's stream from its first byte.
   */
  method HandleX(cr: Crypto, sv: Server, raw: ByteSource) returns (pc: PrefixConn, route: Route)
    modifies raw
    ensures fresh(pc) && pc.conn == raw
    ensures pc.Stream() == old(raw.data)
    ensures route == RouteOf(cr, sv, old(raw.data))
  {
    var peeked := PeekRecord(raw);
    pc := new PrefixConn(raw, peeked.bytes);
    if peeked.err.Some? {
      return pc, Passthrough;
    }
    var v := Authenticate(cr, sv, peeked.bytes);
    if v.NotAHello? || v.d.authKey.None? {
      return pc, Passthrough;
    }
    return pc, Terminate(v.d.authKey.value);
  }

  /** passthrough: the borrowed site sees a prefix of the probe's own bytes, from byte 0. */
  method PassthroughX(raw: ByteSource, pc: PrefixConn, dest: Option<Sink>, passes: Option<nat>) returns (atEnd: bool)
    requires pc.conn == raw && (dest.Some? ==> dest.value.received == [])
    modifies pc`prefix, raw, if dest.Some? then {dest.value} else {}
    ensures dest.Some? ==> dest.value.received <= old(pc.Stream())
    ensures dest.Some? && atEnd ==> dest.value.received == old(pc.Stream())
    ensures dest.None? ==> pc.Stream() == old(pc.Stream())
    ensures passes.None? && dest.Some? && dest.value.sound ==> atEnd
  {
    if dest.None? {
      return true;
    }
    atEnd := Copy(dest.value, pc, passes);
  }

  /** An honest client's record, followed by anything, is peeked whole and decided alone. */
  lemma HonestStreamRouted(cr: Crypto, sv: Server, ephemeral: seq<byte>, shortID: seq<byte>, seconds: int,
                           sh: Shape, ss: seq<Share>, j: nat)
    requires cr.Laws() && |shortID| <= SHORT_ID_LEN && IsInt64(seconds)
    requires |sh.random| == 32 && cr.ecdh(ephemeral, cr.pub(sv.priv)).Some?
    requires var token := ClientSessionID(cr, cr.pub(sv.priv), ephemeral, sh.random, shortID, seconds);
             token.Some? && HonestHello(cr, sh, ss, j, ephemeral, token.value)
    requires |Payload(sh)| <= 16384
    ensures var token := ClientSessionID(cr, cr.pub(sv.priv), ephemeral, sh.random, shortID, seconds).value;
            RouteOf(cr, sv, Print(sh)) ==
              if Accepts(sv.ids, Pad8(shortID)) && InWindow(sv.skew, sv.now, seconds) then Terminate(token.authKey)
              else Passthrough
  {
    var alone := sh.(after := []);
    PeekPrinted(sh);
    HonestDecision(cr, sv, ephemeral, shortID, seconds, alone, ss, j);
  }

  lemma PeekPrinted(sh: Shape)
    requires Fits(sh) && |Payload(sh)| <= 16384
    ensures Peek(Print(sh)) == Peeked(Print(sh.(after := [])), None)
  {
    var (v, b, after) := (sh.recVersion, Payload(sh), sh.after);
    assert |b| >= 4;
    PeekRecordOf(v, b, after);
    assert Payload(sh.(after := [])) == b;
  }

  lemma PeekRecordOf(version: seq<byte>, b: seq<byte>, after: seq<byte>)
    requires |version| == 2 && 4 <= |b| <= 16384
    ensures Peek(Record(version, b, after)) == Peeked(Record(version, b, []), None)
  {
    var w := Record(version, b, after);
    Val16OfU16(|b|);
    assert w[3..] == U16(|b|) + (b + after);
    assert Val16(w[3..]) == |b|;
    assert w[..5 + |b|] == Record(version, b, []);
  }

  // ---------- reality ----------

  /** How a connection leaves reality's handler. */
  datatype Outcome = Spliced | HandshakeFailed | Tunnel | Proxied

  /** peekClientHelloSNI: the name, or an error, and every byte consumed. */
  function PeekName(w: seq<byte>): RealitySni.Walked {
    var p := Peek(w);
    if p.err.Some? then RealitySni.Bad else RealitySni.Walk(p.bytes[5..])
  }

  /** A name was read off the stream and is not one of the configured ones. */
  predicate SplicedAway(checkNames: bool, allowed: seq<byte> -> bool, stream: seq<byte>) {
    checkNames && PeekName(stream).Name? && !allowed(PeekName(stream).name)
  }

  /** The decrypted stream starts with the token, and there is one. */
  predicate TokenOpens(token: seq<byte>, plain: seq<byte>) {
    token != [] && token <= plain
  }

  /** The name read off any stream: what the walk finds behind the record's header. */
  lemma PeekNameExactly(w: seq<byte>)
    ensures forall n :: StartsWithRecord(w, n) ==> PeekName(w) == RealitySni.Walk(w[5..5 + n])
    ensures !(exists n :: StartsWithRecord(w, n)) ==> PeekName(w) == RealitySni.Bad
  {
    PeekExactly(w);
    forall n | StartsWithRecord(w, n)
      ensures PeekName(w) == RealitySni.Walk(w[5..5 + n])
    {
      assert w[..5 + n][5..] == w[5..5 + n];
    }
  }

  /** On a printed hello, followed by anything, it is the name in its first server_name. */
  lemma PeekNameOfPrinted(sh: Shape)
    requires Fits(sh) && |Payload(sh)| <= 16384
    ensures PeekName(Print(sh)) == RealitySni.Walk(Payload(sh))
    ensures sh.block.Block? ==> PeekName(Print(sh)) == RealitySni.FirstName(sh.block.es)
  {
    PeekPrinted(sh);
    var alone := Print(sh.(after := []));
    assert alone == Record(sh.recVersion, Payload(sh), []);
    assert alone[5..] == Payload(sh);
    if sh.block.Block? {
      RealitySni.WalkOfPrinted(sh);
    }
  }

  /**
   * A hello whose first server_name is the printed list ns is spliced away exactly when names
   * are checked and its first host name is not one of them; so is one without a server_name,
   * by the empty name.
   */
  lemma SplicedExactly(sh: Shape, checkNames: bool, allowed: seq<byte> -> bool, i: nat, ns: seq<ServerName>)
    requires Fits(sh) && |Payload(sh)| <= 16384 && sh.block.Block? && NamesFit(ns)
    ensures FirstAt(sh.block.es, EXT_SERVER_NAME, i) && sh.block.es[i] == NameExt(ns) ==>
              (SplicedAway(checkNames, allowed, Print(sh)) <==> checkNames && !allowed(FirstHostName(ns)))
    ensures Absent(sh.block.es, EXT_SERVER_NAME) ==>
              (SplicedAway(checkNames, allowed, Print(sh)) <==> checkNames && !allowed([]))
  {
    PeekNameOfPrinted(sh);
    if FirstAt(sh.block.es, EXT_SERVER_NAME, i) && sh.block.es[i] == NameExt(ns) {
      RealitySni.FirstNameAt(sh.block.es, i);
      RealitySni.StrictNameExt(ns);
    } else if Absent(sh.block.es, EXT_SERVER_NAME) {
      RealitySni.FirstNameAbsent(sh.block.es);
    }
  }

  method PeekClientHelloSNI(src: ByteSource) returns (name: RealitySni.Walked, prefix: seq<byte>)
    modifies src
    ensures name == PeekName(old(src.data)) && prefix + src.data == old(src.data)
  {
    var peeked := PeekRecord(src);
    prefix := peeked.bytes;
    if peeked.err.Some? {
      return RealitySni.Bad, prefix;
    }
    name := RealitySni.SniFromClientHello(prefix[5..]);
  }

  /** The first stage of handle: is this connection spliced away before TLS? */
  method StageOne(raw: ByteSource, checkNames: bool, allowed: seq<byte> -> bool) returns (pc: PrefixConn, splice: bool)
    modifies raw
    ensures fresh(pc) && pc.conn == raw && pc.Stream() == old(raw.data)
    ensures splice <==> (checkNames && PeekName(old(raw.data)).Name? && !allowed(PeekName(old(raw.data)).name))
    ensures splice <==> SplicedAway(checkNames, allowed, old(raw.data))
  {
    if !checkNames {
      pc := new PrefixConn(raw, []);
      return pc, false;
    }
    var name, prefix := PeekClientHelloSNI(raw);
    pc := new PrefixConn(raw, prefix);
    splice := name.Name? && !allowed(name.name);
  }

  /**
   * The rest of handle, over the decrypted stream: an authenticated tunnel starts right after
   * the token, and anyone else's bytes reach the fallback from the first one on.
   */
  method StageTwo(plain: ByteSource, token: seq<byte>, fallback: Option<Sink>, passes: Option<nat>) returns (o: Outcome, atEnd: bool)
    requires fallback.Some? ==> fallback.value.received == []
    modifies plain, if fallback.Some? then {fallback.value} else {}
    ensures o.Tunnel? || o.Proxied?
    ensures o.Tunnel? <==> |token| > 0 && |token| <= |old(plain.data)| && old(plain.data)[..|token|] == token
    ensures o.Tunnel? <==> TokenOpens(token, old(plain.data))
    ensures o.Tunnel? ==> old(plain.data) == token + plain.data && (fallback.Some? ==> fallback.value.received == [])
    ensures o.Proxied? && fallback.Some? ==> fallback.value.received <= old(plain.data)
    ensures o.Proxied? && fallback.Some? && atEnd ==> fallback.value.received == old(plain.data)
    ensures passes.None? && fallback.Some? && fallback.value.sound ==> atEnd
  {
    ghost var all := plain.data;
    var tok := new byte[|token|];
    var n := ReadFull(plain, tok, 0, |token|);
    var consumed := tok[0..n];
    assert consumed == all[..n] && all == consumed + plain.data;
    if |token| > 0 && n == |token| && consumed == token {
      return Tunnel, true;
    }
    o := Proxied;
    atEnd := ReverseProxy(plain, consumed, fallback, passes);
  }

  /** reverseProxy: the bytes already consumed are replayed, then the rest is spliced. */
  method ReverseProxy(plain: ByteSource, consumed: seq<byte>, fallback: Option<Sink>, passes: Option<nat>) returns (atEnd: bool)
    requires fallback.Some? ==> fallback.value.received == []
    modifies plain, if fallback.Some? then {fallback.value} else {}
    ensures fallback.Some? ==> fallback.value.received <= consumed + old(plain.data)
    ensures fallback.Some? && atEnd ==> fallback.value.received == consumed + old(plain.data)
    ensures passes.None? && fallback.Some? && fallback.value.sound ==> atEnd
  {
    if fallback.None? {
      return true;
    }
    var dst := fallback.value;
    var ok := dst.Write(consumed);
    if !ok {
      assert dst.received <= consumed <= consumed + plain.data;
      return false;
    }
    var client := new PrefixConn(plain, []);
    assert client.Stream() == plain.data;
    atEnd := Copy(dst, client, passes);
  }
}
