/**
 * The sealed token of a ClientHello and the server's decision about it. The cryptography is
 * a bundle of uninterpreted functions; Laws states all that is used of them.
 */
module Auth {
  import opened Bytes
  import opened ClientHello
  import opened HelloGrammar
  import opened HelloMeaning

  const SHORT_ID_LEN := 8
  const MAX_DURATION := 0x7fff_ffff_ffff_ffff
  const MIN_DURATION := -0x8000_0000_0000_0000
  const SECOND := 1_000_000_000

  datatype Crypto = Crypto(
    pub: seq<byte> -> seq<byte>,                                              // X25519 public key
    ecdh: (seq<byte>, seq<byte>) -> Option<seq<byte>>,                        // fails on a low-order point
    hkdf: (seq<byte>, seq<byte>) -> seq<byte>,                                // of secret and salt
    seal: (seq<byte>, seq<byte>, seq<byte>, seq<byte>) -> seq<byte>,          // key, nonce, aad, text
    open: (seq<byte>, seq<byte>, seq<byte>, seq<byte>) -> Option<seq<byte>>)
  {
    ghost predicate Laws() {
      && (forall k :: |pub(k)| == 32)
      && (forall a, b :: ecdh(a, pub(b)) == ecdh(b, pub(a)))
      && (forall k, n, a, t :: |seal(k, n, a, t)| == |t| + 16)
      && (forall k, n, a, t :: open(k, n, a, seal(k, n, a, t)) == Some(t))
      && (forall k, n, a, c :: open(k, n, a, c).Some? ==> |open(k, n, a, c).value| + 16 == |c|)
    }
  }

  // ---------- the payload ----------

  /** PutUint64 and Uint64: eight bytes, big-endian. */
  function Words(n: nat): (s: seq<byte>)
    ensures |s| == 8
  {
    U16(n / 0x1_0000_0000_0000) + U16(n / 0x1_0000_0000) + U16(n / 0x1_0000) + U16(n)
  }

  function Uint64(s: seq<byte>): nat
    requires |s| >= 8
  {
    ((Val16(s) * 0x1_0000 + Val16(s[2..])) * 0x1_0000 + Val16(s[4..])) * 0x1_0000 + Val16(s[6..])
  }

  /** PutUint64(uint64(t)) of a signed t: two's complement. */
  function U64(t: int): (s: seq<byte>)
    ensures |s| == 8
  {
    Words(t % 0x1_0000_0000_0000_0000)
  }

  /** int64(Uint64(s)). */
  function Int64(s: seq<byte>): int
    requires |s| >= 8
  {
    var n := Uint64(s);
    if n < 0x8000_0000_0000_0000 then n else n - 0x1_0000_0000_0000_0000
  }

  predicate IsInt64(t: int) {
    MIN_DURATION <= t <= MAX_DURATION
  }

  lemma Quarter(n: nat)
    requires n < 0x1_0000_0000_0000_0000
    ensures var (a, b, c, d) := (n / 0x1_0000_0000_0000, n / 0x1_0000_0000 % 0x1_0000, n / 0x1_0000 % 0x1_0000, n % 0x1_0000);
            a < 0x1_0000 && ((a * 0x1_0000 + b) * 0x1_0000 + c) * 0x1_0000 + d == n
  {
    var (x, y, z) := (n / 0x1_0000, n / 0x1_0000_0000, n / 0x1_0000_0000_0000);
    assert x / 0x1_0000 == y && y / 0x1_0000 == z;
    assert n == x * 0x1_0000 + n % 0x1_0000;
    assert x == y * 0x1_0000 + x % 0x1_0000;
    assert y == z * 0x1_0000 + y % 0x1_0000;
  }

  lemma FourWords(a: nat, b: nat, c: nat, d: nat)
    ensures var s := U16(a) + U16(b) + U16(c) + U16(d);
            && Val16(s) == a % 0x1_0000 && Val16(s[2..]) == b % 0x1_0000
            && Val16(s[4..]) == c % 0x1_0000 && Val16(s[6..]) == d % 0x1_0000
  {
    Val16OfU16(a);
    Val16OfU16(b);
    Val16OfU16(c);
    Val16OfU16(d);
  }

  lemma Uint64OfWords(n: nat)
    requires n < 0x1_0000_0000_0000_0000
    ensures Uint64(Words(n)) == n
  {
    Quarter(n);
    FourWords(n / 0x1_0000_0000_0000, n / 0x1_0000_0000, n / 0x1_0000, n);
  }

  lemma Int64OfU64(t: int)
    requires IsInt64(t)
    ensures Int64(U64(t)) == t
  {
    var n := if t >= 0 then t else t + 0x1_0000_0000_0000_0000;
    assert t % 0x1_0000_0000_0000_0000 == n;
    Uint64OfWords(n);
  }

  /** copy into eight zero bytes: padded with zeros, cut at eight. */
  function Pad8(id: seq<byte>): (s: seq<byte>)
    ensures |s| == 8
    ensures forall j :: 0 <= j < 8 ==> s[j] == if j < |id| then id[j] else 0
  {
    if |id| >= SHORT_ID_LEN then id[..SHORT_ID_LEN]
    else id + seq(SHORT_ID_LEN - |id|, _ => 0 as byte)
  }

  datatype AuthError = BadRandom | ShortID | BadSession | AuthFailed

  datatype Sealed = Sealed(sessionID: seq<byte>) | SealErr(error: AuthError)

  datatype Opened = Opened(seconds: int, shortID: seq<byte>) | OpenErr(error: AuthError)

  function SealSpec(cr: Crypto, key: seq<byte>, random: seq<byte>, shortID: seq<byte>, seconds: int): (r: Sealed)
    ensures r == SealErr(BadRandom) <==> |random| != 32
    ensures r == SealErr(ShortID) <==> |random| == 32 && |shortID| > 8
    ensures r.Sealed? <==> |random| == 32 && |shortID| <= 8
  {
    if |random| != 32 then SealErr(BadRandom)
    else if |shortID| > SHORT_ID_LEN then SealErr(ShortID)
    else Sealed(cr.seal(key, random[20..], random[..20], U64(seconds) + Pad8(shortID)))
  }

  function OpenSpec(cr: Crypto, key: seq<byte>, random: seq<byte>, sessionID: seq<byte>): (r: Opened)
    ensures r == OpenErr(BadRandom) <==> |random| != 32
    ensures r == OpenErr(BadSession) <==> |random| == 32 && |sessionID| != 32
    ensures r.Opened? ==> cr.open(key, random[20..], random[..20], sessionID).Some?
  {
    if |random| != 32 then OpenErr(BadRandom)
    else if |sessionID| != 32 then OpenErr(BadSession)
    else
      match cr.open(key, random[20..], random[..20], sessionID)
      case None => OpenErr(AuthFailed)
      case Some(pt) => if |pt| < 16 then OpenErr(AuthFailed) else Opened(Int64(pt[..8]), pt[8..16])
  }

  /** sealAuth: the payload is filled in place, then sealed under the halves of the random. */
  method SealAuth(cr: Crypto, key: seq<byte>, random: seq<byte>, shortID: seq<byte>, seconds: int) returns (r: Sealed)
    ensures r == SealSpec(cr, key, random, shortID, seconds)
  {
    if |random| != 32 {
      return SealErr(BadRandom);
    }
    if |shortID| > SHORT_ID_LEN {
      return SealErr(ShortID);
    }
    var pt := new byte[16](_ => 0);
    var stamp := U64(seconds);
    forall i | 0 <= i < 8 {
      pt[i] := stamp[i];
    }
    forall i | 0 <= i < |shortID| {
      pt[8 + i] := shortID[i];
    }
    assert pt[..] == stamp + Pad8(shortID);
    return Sealed(cr.seal(key, random[20..], random[..20], pt[..]));
  }

  /** openAuth, for a cipher that keeps the law on lengths. */
  method OpenAuth(cr: Crypto, key: seq<byte>, random: seq<byte>, sessionID: seq<byte>) returns (r: Opened)
    requires cr.Laws()
    ensures r == OpenSpec(cr, key, random, sessionID)
  {
    if |random| != 32 {
      return OpenErr(BadRandom);
    }
    if |sessionID| != 32 {
      return OpenErr(BadSession);
    }
    var result := cr.open(key, random[20..], random[..20], sessionID);
    if result.None? {
      return OpenErr(AuthFailed);
    }
    var pt := result.value;
    var shortID := new byte[8];
    forall i | 0 <= i < 8 {
      shortID[i] := pt[8 + i];
    }
    assert shortID[..] == pt[8..16];
    return Opened(Int64(pt[..8]), shortID[..]);
  }

  /** What is sealed is opened: the time in whole seconds and the zero-padded shortId. */
  lemma SealOpens(cr: Crypto, key: seq<byte>, random: seq<byte>, shortID: seq<byte>, seconds: int)
    requires cr.Laws() && |random| == 32 && |shortID| <= SHORT_ID_LEN && IsInt64(seconds)
    ensures var s := SealSpec(cr, key, random, shortID, seconds);
            && s.Sealed? && |s.sessionID| == 32
            && OpenSpec(cr, key, random, s.sessionID) == Opened(seconds, Pad8(shortID))
  {
    var pt := U64(seconds) + Pad8(shortID);
    assert pt[..8] == U64(seconds) && pt[8..16] == Pad8(shortID);
    Int64OfU64(seconds);
  }

  // ---------- the two ends ----------

  datatype Token = Token(sessionID: seq<byte>, authKey: seq<byte>)

  /** ClientSessionID at the whole second `seconds`. */
  function ClientSessionID(cr: Crypto, serverPub: seq<byte>, ephemeral: seq<byte>, random: seq<byte>, shortID: seq<byte>, seconds: int): Option<Token> {
    if |serverPub| != 32 then None
    else
      match cr.ecdh(ephemeral, serverPub)
      case None => None
      case Some(shared) =>
        if |random| != 32 then None
        else
          var key := cr.hkdf(shared, random);
          match SealSpec(cr, key, random, shortID, seconds)
          case SealErr(_) => None
          case Sealed(sid) => Some(Token(sid, key))
  }

  /** A client gets a token from any inputs exactly under these conditions, and it is this one. */
  lemma ClientTokenExactly(cr: Crypto, serverPub: seq<byte>, ephemeral: seq<byte>, random: seq<byte>, shortID: seq<byte>,
                           seconds: int, shared: seq<byte>, payload: seq<byte>)
    requires cr.ecdh(ephemeral, serverPub) == Some(shared) || cr.ecdh(ephemeral, serverPub) == None
    requires IsInt64(seconds) && |payload| == 16 && Int64(payload[..8]) == seconds
    requires forall j :: 0 <= j < 8 ==> payload[8 + j] == if j < |shortID| then shortID[j] else 0
    ensures var token := ClientSessionID(cr, serverPub, ephemeral, random, shortID, seconds);
            var key := cr.hkdf(shared, random);
            && (token.Some? <==>
                  |serverPub| == |random| == 32 && cr.ecdh(ephemeral, serverPub).Some? && |shortID| <= 8)
            && (token.Some? ==>
                  token.value == Token(cr.seal(key, random[20..], random[..20], payload), key))
  {
    U64OfInt64(payload[..8]);
    assert payload == payload[..8] + payload[8..];
    assert payload[8..] == Pad8(shortID);
  }

  /** Eight bytes are the signed number they read as. */
  lemma U64OfInt64(s: seq<byte>)
    requires |s| == 8
    ensures U64(Int64(s)) == s
  {
    var n := Uint64(s);
    var (a, b, d, e) := (Val16(s), Val16(s[2..]), Val16(s[4..]), Val16(s[6..]));
    assert Int64(s) % 0x1_0000_0000_0000_0000 == n;
    WordsOfQuarters(a, b, d, e);
    U16OfVal16(s);
    U16OfVal16(s[2..]);
    U16OfVal16(s[4..]);
    U16OfVal16(s[6..]);
    assert s == s[..2] + s[2..][..2] + s[4..][..2] + s[6..][..2];
  }

  lemma WordsOfQuarters(a: nat, b: nat, d: nat, e: nat)
    requires a < 0x1_0000 && b < 0x1_0000 && d < 0x1_0000 && e < 0x1_0000
    ensures Words(((a * 0x1_0000 + b) * 0x1_0000 + d) * 0x1_0000 + e) == U16(a) + U16(b) + U16(d) + U16(e)
  {
    var x := a * 0x1_0000 + b;
    var y := x * 0x1_0000 + d;
    var n := y * 0x1_0000 + e;
    assert n / 0x1_0000 == y && y / 0x1_0000 == x && x / 0x1_0000 == a;
    assert n / 0x1_0000_0000 == x && n / 0x1_0000_0000_0000 == a;
    SameU16(n, y, e);
    SameU16(y, x, d);
    SameU16(x, a, b);
  }

  /** The cast to 16 bits keeps the last of two halves. */
  lemma SameU16(n: nat, high: nat, low: nat)
    requires n == high * 0x1_0000 + low && low < 0x1_0000
    ensures U16(n) == U16(low)
  {
    assert n / 256 == high * 256 + low / 256;
  }

  /** time.Since, in nanoseconds: the difference saturates at the ends of a Duration. */
  function Since(now: int, seconds: int): int {
    var d := now - seconds * SECOND;
    if d < MIN_DURATION then MIN_DURATION else if d > MAX_DURATION then MAX_DURATION else d
  }

  predicate InWindow(skew: int, now: int, seconds: int) {
    skew > 0 ==> -skew <= Since(now, seconds) <= skew
  }

  /** The window means a true distance, except that the largest skew has no past limit. */
  lemma WindowExactly(skew: int, now: int, seconds: int)
    requires 0 < skew <= MAX_DURATION
    ensures InWindow(skew, now, seconds) <==>
              -skew <= now - seconds * SECOND && (now - seconds * SECOND <= skew || skew == MAX_DURATION)
  {
  }

  predicate Accepts(ids: seq<seq<byte>>, shortID: seq<byte>) {
    exists i :: 0 <= i < |ids| && Pad8(ids[i]) == shortID
  }

  /** acceptShortID. */
  method AcceptShortID(ids: seq<seq<byte>>, shortID: seq<byte>) returns (r: bool)
    ensures r == Accepts(ids, shortID)
  {
    for i := 0 to |ids|
      invariant forall j :: 0 <= j < i ==> Pad8(ids[j]) != shortID
    {
      if Pad8(ids[i]) == shortID {
        return true;
      }
    }
    return false;
  }

  /** The listener's configuration and the clock reading in nanoseconds. */
  datatype Server = Server(priv: seq<byte>, ids: seq<seq<byte>>, skew: int, now: int)

  function ServerAuthenticate(cr: Crypto, sv: Server, clientPub: seq<byte>, random: seq<byte>, sid: seq<byte>): Option<seq<byte>> {
    if |clientPub| != 32 then None
    else
      match cr.ecdh(sv.priv, clientPub)
      case None => None
      case Some(shared) =>
        if |random| != 32 then None
        else
          var key := cr.hkdf(shared, random);
          match OpenSpec(cr, key, random, sid)
          case OpenErr(_) => None
          case Opened(seconds, shortID) =>
            if !InWindow(sv.skew, sv.now, seconds) || !Accepts(sv.ids, shortID) then None else Some(key)
  }

  /** authKey is present exactly when the hello authenticated. */
  datatype Decision = Decision(authKey: Option<seq<byte>>, info: Hello)

  datatype Verdict = Decided(d: Decision) | NotAHello(error: Error)

  /** Authenticate: parse, check the shape of the fields, open and gate the token. */
  function Authenticate(cr: Crypto, sv: Server, record: seq<byte>): Verdict {
    match Parse(record)
    case Err(e) => NotAHello(e)
    case Ok(info) =>
      if info.x25519.None? || |info.x25519.value| != 32 || |info.sessionID| != 32 || |info.random| != 32 then
        Decided(Decision(None, info))
      else
        Decided(Decision(ServerAuthenticate(cr, sv, info.x25519.value, info.random, info.sessionID), info))
  }

  /**
   * What entitles a hello to the key k: its share gives a secret whose key opens the session
   * id, under the two parts of the random, to a second near enough to the clock and the
   * zero-padded form of a configured shortId.
   */
  ghost predicate Entitled(cr: Crypto, sv: Server, info: Hello, secret: seq<byte>, pt: seq<byte>, k: seq<byte>) {
    && info.x25519.Some? && |info.x25519.value| == |info.sessionID| == |info.random| == 32
    && cr.ecdh(sv.priv, info.x25519.value) == Some(secret) && k == cr.hkdf(secret, info.random)
    && cr.open(k, info.random[20..], info.random[..20], info.sessionID) == Some(pt) && |pt| == 16
    && (sv.skew > 0 ==>
          var d := sv.now - Int64(pt[..8]) * 1_000_000_000;
          -sv.skew <= d && (d <= sv.skew || sv.skew == MAX_DURATION))
    && (exists i :: 0 <= i < |sv.ids| && PaddedIs(sv.ids[i], pt[8..]))
  }

  /** s is id with zeros behind it, or the first eight bytes of id. */
  ghost predicate PaddedIs(id: seq<byte>, s: seq<byte>) {
    |s| == 8 && forall j :: 0 <= j < 8 ==> s[j] == if j < |id| then id[j] else 0
  }

  lemma PaddedExactly(id: seq<byte>, s: seq<byte>)
    ensures Pad8(id) == s <==> PaddedIs(id, s)
  {
  }

  lemma AcceptsExactly(ids: seq<seq<byte>>, s: seq<byte>)
    ensures Accepts(ids, s) <==> exists i :: 0 <= i < |ids| && PaddedIs(ids[i], s)
  {
    forall i | 0 <= i < |ids|
      ensures Pad8(ids[i]) == s <==> PaddedIs(ids[i], s)
    {
      PaddedExactly(ids[i], s);
    }
  }

  lemma OpensExactly(cr: Crypto, sv: Server, info: Hello, k: seq<byte>)
    requires cr.Laws() && sv.skew <= MAX_DURATION && |info.random| == |info.sessionID| == 32
    requires info.x25519.Some? && |info.x25519.value| == 32
    ensures ServerAuthenticate(cr, sv, info.x25519.value, info.random, info.sessionID) == Some(k) <==>
              exists secret, pt :: Entitled(cr, sv, info, secret, pt, k)
  {
    var shared := cr.ecdh(sv.priv, info.x25519.value);
    if shared.Some? {
      var key := cr.hkdf(shared.value, info.random);
      var text := cr.open(key, info.random[20..], info.random[..20], info.sessionID);
      if text.Some? {
        GateExactly(cr, sv, info, shared.value, text.value);
      }
    }
  }

  lemma GateExactly(cr: Crypto, sv: Server, info: Hello, secret: seq<byte>, pt: seq<byte>)
    requires cr.Laws() && sv.skew <= MAX_DURATION && |info.random| == |info.sessionID| == 32
    requires info.x25519.Some? && |info.x25519.value| == 32
    requires cr.ecdh(sv.priv, info.x25519.value) == Some(secret)
    requires cr.open(cr.hkdf(secret, info.random), info.random[20..], info.random[..20], info.sessionID) == Some(pt)
    ensures var key := cr.hkdf(secret, info.random);
            ServerAuthenticate(cr, sv, info.x25519.value, info.random, info.sessionID)
              == if Entitled(cr, sv, info, secret, pt, key) then Some(key) else None
  {
    assert pt[8..16] == pt[8..];
    AcceptsExactly(sv.ids, pt[8..16]);
    if sv.skew > 0 {
      WindowExactly(sv.skew, sv.now, Int64(pt[..8]));
    }
  }

  /**
   * The decision on any record whatever: it is no hello exactly when it does not parse, and it
   * yields the key k exactly when its fields entitle it to k.
   */
  lemma AuthenticatesExactly(cr: Crypto, sv: Server, record: seq<byte>, k: seq<byte>)
    requires cr.Laws() && sv.skew <= MAX_DURATION
    ensures Authenticate(cr, sv, record).NotAHello? <==> Parse(record).Err?
    ensures Parse(record).Ok? ==>
              var v := Authenticate(cr, sv, record);
              && v.Decided? && v.d.info == Parse(record).info
              && (v.d.authKey == Some(k) <==> exists secret, pt :: Entitled(cr, sv, Parse(record).info, secret, pt, k))
  {
    if Parse(record).Ok? {
      var info := Parse(record).info;
      if info.x25519.Some? && |info.x25519.value| == |info.sessionID| == |info.random| == 32 {
        OpensExactly(cr, sv, info, k);
      }
    }
  }

  /** The shares a client may send: any groups around its own X25519 key, which comes first. */
  ghost predicate HonestHello(cr: Crypto, sh: Shape, ss: seq<Share>, j: nat, ephemeral: seq<byte>, token: Token) {
    && Fits(sh) && sh.block.Block? && sh.sid == token.sessionID
    && SharesFit(ss) && FirstX25519(ss) == Some(cr.pub(ephemeral))
    && OnlyAt(sh.block.es, EXT_KEY_SHARE, j) && sh.block.es[j] == ShareExt(ss)
  }

  /**
   * The whole decision, for any honest hello, its extensions in any order: the server
   * authenticates it, with the client's own key, if and only if the zero-padded shortId is
   * configured and the client's second is within the skew, or the check is off. Below the
   * largest skew that is the true distance of the two clocks.
   */
  lemma HonestDecision(cr: Crypto, sv: Server, ephemeral: seq<byte>, shortID: seq<byte>, seconds: int,
                       sh: Shape, ss: seq<Share>, j: nat)
    requires cr.Laws() && |shortID| <= SHORT_ID_LEN && IsInt64(seconds)
    requires |sh.random| == 32 && cr.ecdh(ephemeral, cr.pub(sv.priv)).Some?
    requires var token := ClientSessionID(cr, cr.pub(sv.priv), ephemeral, sh.random, shortID, seconds);
             token.Some? && HonestHello(cr, sh, ss, j, ephemeral, token.value)
    ensures var token := ClientSessionID(cr, cr.pub(sv.priv), ephemeral, sh.random, shortID, seconds).value;
            var v := Authenticate(cr, sv, Print(sh));
            && v.Decided?
            && (v.d.authKey.Some? <==> Accepts(sv.ids, Pad8(shortID)) && InWindow(sv.skew, sv.now, seconds))
            && (v.d.authKey.Some? ==> v.d.authKey == Some(token.authKey))
            && (sv.skew <= 0 ==> (v.d.authKey.Some? <==> Accepts(sv.ids, Pad8(shortID))))
            && (0 < sv.skew < MAX_DURATION ==>
                  (v.d.authKey.Some? <==>
                     Accepts(sv.ids, Pad8(shortID)) && -sv.skew <= sv.now - seconds * SECOND <= sv.skew))
  {
    if 0 < sv.skew < MAX_DURATION {
      WindowExactly(sv.skew, sv.now, seconds);
    }
    PrintedParses(sh);
    MeaningOnly(sh.block.es, Found([], None), j);
    ShareExtParses(ss);
    var shared := cr.ecdh(ephemeral, cr.pub(sv.priv)).value;
    SealOpens(cr, cr.hkdf(shared, sh.random), sh.random, shortID, seconds);
  }

  /** An honest client whose clock is right gets a token at all. */
  lemma HonestClientGetsToken(cr: Crypto, serverPriv: seq<byte>, ephemeral: seq<byte>, random: seq<byte>, shortID: seq<byte>, seconds: int)
    requires cr.Laws() && |random| == 32
    ensures var token := ClientSessionID(cr, cr.pub(serverPriv), ephemeral, random, shortID, seconds);
            token.Some? <==> (cr.ecdh(serverPriv, cr.pub(ephemeral)).Some? && |shortID| <= SHORT_ID_LEN)
  {
    assert cr.ecdh(ephemeral, cr.pub(serverPriv)) == cr.ecdh(serverPriv, cr.pub(ephemeral));
  }
}
