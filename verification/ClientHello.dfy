/**
 * The ClientHello parser, first as functions from bytes to fields and then as the loops over
 * shrinking slices that compute them. Formats: sections 4.1.2, 4.2, 4.2.8 and 5.1 of
 * RFC 8446, and section 3 of RFC 6066.
 */
module ClientHello {
  import opened Bytes

  const EXT_SERVER_NAME := 0x0000
  const EXT_KEY_SHARE := 0x0033
  const GROUP_X25519 := 0x001d

  datatype Error = NotTLS | BadHello

  datatype Hello = Hello(random: seq<byte>, sessionID: seq<byte>, serverName: seq<byte>, x25519: Option<seq<byte>>)

  datatype Parsed = Ok(info: Hello) | Err(error: Error)

  /** A length-prefixed field and what follows it. */
  datatype Field = Field(field: seq<byte>, rest: seq<byte>)

  function Take8(p: seq<byte>): (r: Option<Field>)
    ensures r.Some? ==> |r.value.field| + |r.value.rest| + 1 == |p|
  {
    if |p| < 1 then None
    else
      var n := p[0] as int;
      if |p| < 1 + n then None else Some(Field(p[1..1 + n], p[1 + n..]))
  }

  function Take16(p: seq<byte>): (r: Option<Field>)
    ensures r.Some? ==> |r.value.field| + |r.value.rest| + 2 == |p|
  {
    if |p| < 2 || |p| < 2 + Val16(p) then None
    else Some(Field(p[2..2 + Val16(p)], p[2 + Val16(p)..]))
  }

  // ---------- the extensions of interest ----------

  /** The first host_name of a name list cut anywhere, or the empty name. */
  function FirstHost(list: seq<byte>): seq<byte> {
    if |list| < 3 then []
    else
      var n := Val16(list[1..]);
      if |list| < 3 + n then []
      else if list[0] == 0 then list[3..3 + n]
      else FirstHost(list[3 + n..])
  }

  function Sni(ext: seq<byte>): seq<byte> {
    match Take16(ext)
    case None => []
    case Some(f) => FirstHost(f.field)
  }

  /** The first 32-byte X25519 share of a share list cut anywhere. */
  function FirstShare(shares: seq<byte>): Option<seq<byte>> {
    if |shares| < 4 then None
    else
      var n := Val16(shares[2..]);
      if |shares| < 4 + n then None
      else if Val16(shares) == GROUP_X25519 && n == 32 then Some(shares[4..4 + n])
      else FirstShare(shares[4 + n..])
  }

  function KeyShare(ext: seq<byte>): Option<seq<byte>> {
    match Take16(ext)
    case None => None
    case Some(f) => FirstShare(f.field)
  }

  /** The two fields read out of an extension block; a repeated extension replaces them. */
  datatype Found = Found(name: seq<byte>, share: Option<seq<byte>>)

  function Note(found: Found, etype: nat, body: seq<byte>): Found {
    if etype == EXT_SERVER_NAME then found.(name := Sni(body))
    else if etype == EXT_KEY_SHARE then found.(share := KeyShare(body))
    else found
  }

  /** Fewer than four trailing bytes of an extension block are ignored. */
  function Scan(ext: seq<byte>, found: Found): Option<Found> {
    if |ext| < 4 then Some(found)
    else
      var n := Val16(ext[2..]);
      if |ext| < 4 + n then None
      else Scan(ext[4 + n..], Note(found, Val16(ext), ext[4..4 + n]))
  }

  // ---------- the record ----------

  /** What follows the compression methods: nothing, or an extension block. */
  function ParseBlock(p: seq<byte>): Option<Found> {
    if |p| < 2 then Some(Found([], None))
    else if |p| < 2 + Val16(p) then None
    else Scan(p[2..2 + Val16(p)], Found([], None))
  }

  function ParseFields(random: seq<byte>, p: seq<byte>): Parsed {
    match Take8(p)
    case None => Err(BadHello)
    case Some(sid) =>
      match Take16(sid.rest)
      case None => Err(BadHello)
      case Some(ciphers) =>
        match Take8(ciphers.rest)
        case None => Err(BadHello)
        case Some(compression) =>
          match ParseBlock(compression.rest)
          case None => Err(BadHello)
          case Some(found) => Ok(Hello(random, sid.field, found.name, found.share))
  }

  function ParseBody(p: seq<byte>): Parsed {
    if |p| < 34 then Err(BadHello) else ParseFields(p[2..34], p[34..])
  }

  function ParseHandshake(b: seq<byte>): Parsed
    requires |b| >= 4
  {
    var n := Val24(b[1..]);
    if b[0] != 1 || n > |b| - 4 then Err(BadHello) else ParseBody(b[4..4 + n])
  }

  function Parse(record: seq<byte>): Parsed {
    if |record| < 5 || record[0] != 0x16 then Err(NotTLS)
    else
      var n := Val16(record[3..]);
      if n < 4 || 5 + n > |record| then Err(BadHello) else ParseHandshake(record[5..5 + n])
  }

  // ---------- the loops ----------

  /** parseSNI. */
  method ParseSNI(ext: seq<byte>) returns (name: seq<byte>)
    ensures name == Sni(ext)
  {
    var taken := Take16(ext);
    if taken.None? {
      return [];
    }
    var list := taken.value.field;
    while |list| >= 3
      invariant Sni(ext) == FirstHost(list)
      decreases |list|
    {
      var nameType, n := list[0], Val16(list[1..]);
      var rest := list[3..];
      if |rest| < n {
        return [];
      }
      if nameType == 0 {
        assert rest[..n] == list[3..3 + n];
        return rest[..n];
      }
      assert rest[n..] == list[3 + n..];
      list := rest[n..];
    }
    return [];
  }

  /** parseKeyShareX25519. */
  method ParseKeyShareX25519(ext: seq<byte>) returns (share: Option<seq<byte>>)
    ensures share == KeyShare(ext)
  {
    var taken := Take16(ext);
    if taken.None? {
      return None;
    }
    var shares := taken.value.field;
    while |shares| >= 4
      invariant KeyShare(ext) == FirstShare(shares)
      decreases |shares|
    {
      var group, n := Val16(shares), Val16(shares[2..]);
      var rest := shares[4..];
      if |rest| < n {
        return None;
      }
      var data := rest[..n];
      assert data == shares[4..4 + n] && rest[n..] == shares[4 + n..];
      shares := rest[n..];
      if group == GROUP_X25519 && |data| == 32 {
        return Some(data);
      }
    }
    return None;
  }

  /** The extension loop of ParseClientHello. */
  method ScanExtensions(block: seq<byte>) returns (r: Option<Found>)
    ensures r == Scan(block, Found([], None))
  {
    var found := Found([], None);
    var ext := block;
    while |ext| >= 4
      invariant Scan(block, Found([], None)) == Scan(ext, found)
      decreases |ext|
    {
      var etype, n := Val16(ext), Val16(ext[2..]);
      var rest := ext[4..];
      if |rest| < n {
        return None;
      }
      var body := rest[..n];
      assert body == ext[4..4 + n] && rest[n..] == ext[4 + n..];
      ext := rest[n..];
      if etype == EXT_SERVER_NAME {
        var name := ParseSNI(body);
        found := found.(name := name);
      } else if etype == EXT_KEY_SHARE {
        var share := ParseKeyShareX25519(body);
        found := found.(share := share);
      }
    }
    return Some(found);
  }

  /** ParseClientHello. */
  method ParseClientHello(record: seq<byte>) returns (r: Parsed)
    ensures r == Parse(record)
  {
    if |record| < 5 || record[0] != 0x16 {
      return Err(NotTLS);
    }
    var recLen := Val16(record[3..]);
    if recLen < 4 || 5 + recLen > |record| {
      return Err(BadHello);
    }
    var b := record[5..5 + recLen];
    var hsLen := Val24(b[1..]);
    if b[0] != 1 || hsLen > |b| - 4 {
      return Err(BadHello);
    }
    var p := b[4..4 + hsLen];
    if |p| < 34 {
      return Err(BadHello);
    }
    r := ParseRest(p[2..34], p[34..]);
  }

  /** The rest of ParseClientHello, from the session id on. */
  method ParseRest(random: seq<byte>, fields: seq<byte>) returns (r: Parsed)
    ensures r == ParseFields(random, fields)
  {
    var sid := Take8(fields);
    if sid.None? {
      return Err(BadHello);
    }
    var p := sid.value.rest;
    var ciphers := Take16(p);
    if ciphers.None? {
      return Err(BadHello);
    }
    p := ciphers.value.rest;
    var compression := Take8(p);
    if compression.None? {
      return Err(BadHello);
    }
    p := compression.value.rest;
    if |p| < 2 {
      return Ok(Hello(random, sid.value.field, [], None));
    }
    var extLen := Val16(p);
    if |p| < 2 + extLen {
      return Err(BadHello);
    }
    var found := ScanExtensions(p[2..2 + extLen]);
    if found.None? {
      return Err(BadHello);
    }
    return Ok(Hello(random, sid.value.field, found.value.name, found.value.share));
  }
}
