/**
 * The language the ClientHello parser accepts, as a printer: a record is accepted exactly
 * when it is the printed form of some shape, and then the fields are those of the shape.
 */
module HelloGrammar {
  import opened Bytes
  import opened ClientHello

  function Vec8(f: seq<byte>): seq<byte>
    requires |f| < 256
  {
    [|f| as byte] + f
  }

  function Vec16(f: seq<byte>): seq<byte> {
    U16(|f|) + f
  }

  datatype Ext = Ext(etype: nat, body: seq<byte>)

  function PrintExt(e: Ext): seq<byte> {
    U16(e.etype) + Vec16(e.body)
  }

  function PrintExts(es: seq<Ext>): seq<byte> {
    if es == [] then [] else PrintExt(es[0]) + PrintExts(es[1..])
  }

  /** What may follow the compression methods. */
  datatype Block =
    | NoBlock(junk: seq<byte>)                                       // fewer than two bytes
    | Block(es: seq<Ext>, tail: seq<byte>, junk: seq<byte>)          // fewer than four in tail

  /** A single-record ClientHello with every byte accounted for. */
  datatype Shape = Shape(
    recVersion: seq<byte>, hsVersion: seq<byte>, random: seq<byte>, sid: seq<byte>,
    ciphers: seq<byte>, compression: seq<byte>, block: Block,
    slack: seq<byte>,  // in the record, after the handshake message
    after: seq<byte>)  // after the record

  predicate ExtsFit(es: seq<Ext>) {
    forall i :: 0 <= i < |es| ==> es[i].etype < 65536 && |es[i].body| < 65536
  }

  function PrintBlock(b: Block): seq<byte> {
    match b
    case NoBlock(junk) => junk
    case Block(es, tail, junk) => Vec16(PrintExts(es) + tail) + junk
  }

  predicate BlockFits(b: Block) {
    match b
    case NoBlock(junk) => |junk| < 2
    case Block(es, tail, _) => ExtsFit(es) && |tail| < 4 && |PrintExts(es) + tail| < 65536
  }

  predicate FieldsFit(sh: Shape) {
    && |sh.recVersion| == |sh.hsVersion| == 2 && |sh.random| == 32
    && |sh.sid| < 256 && |sh.ciphers| < 65536 && |sh.compression| < 256
    && BlockFits(sh.block)
  }

  function PrintFields(sh: Shape): seq<byte>
    requires FieldsFit(sh)
  {
    Vec8(sh.sid) + (Vec16(sh.ciphers) + (Vec8(sh.compression) + PrintBlock(sh.block)))
  }

  function PrintBody(sh: Shape): seq<byte>
    requires FieldsFit(sh)
  {
    sh.hsVersion + (sh.random + PrintFields(sh))
  }

  /** A handshake message with body p, and what follows it in the record. */
  function Message(p: seq<byte>, slack: seq<byte>): seq<byte> {
    [1] + (U24(|p|) + (p + slack))
  }

  /** A handshake record with payload b, and what follows it in the stream. */
  function Record(version: seq<byte>, b: seq<byte>, after: seq<byte>): seq<byte> {
    [0x16] + (version + (U16(|b|) + (b + after)))
  }

  /** The record's payload: the handshake message and what follows it. */
  function Payload(sh: Shape): seq<byte>
    requires FieldsFit(sh)
  {
    Message(PrintBody(sh), sh.slack)
  }

  predicate Fits(sh: Shape) {
    FieldsFit(sh) && |PrintBody(sh)| + |sh.slack| + 4 < 65536
  }

  function Print(sh: Shape): seq<byte>
    requires Fits(sh)
  {
    Record(sh.recVersion, Payload(sh), sh.after)
  }

  // ---------- printed fields parse ----------

  lemma Take8Vec8(f: seq<byte>, rest: seq<byte>)
    requires |f| < 256
    ensures Take8(Vec8(f) + rest) == Some(Field(f, rest))
  {
    assert (Vec8(f) + rest)[1..1 + |f|] == f;
    assert (Vec8(f) + rest)[1 + |f|..] == rest;
  }

  lemma Val16Vec16(f: seq<byte>, rest: seq<byte>)
    requires |f| < 65536
    ensures var w := Vec16(f) + rest;
            Val16(w) == |f| && w[2..2 + |f|] == f && w[2 + |f|..] == rest
  {
    Val16OfU16(|f|);
  }

  lemma Take16Vec16(f: seq<byte>, rest: seq<byte>)
    requires |f| < 65536
    ensures Take16(Vec16(f) + rest) == Some(Field(f, rest))
  {
    Val16Vec16(f, rest);
  }

  /** What a list of extensions means: the last server_name and the last key_share count. */
  function Meaning(es: seq<Ext>, found: Found): Found {
    if es == [] then found else Meaning(es[1..], Note(found, es[0].etype, es[0].body))
  }

  lemma HeadExt(e: Ext, rest: seq<byte>)
    requires e.etype < 65536 && |e.body| < 65536
    ensures var w := PrintExt(e) + rest;
            && |w| >= 4 && Val16(w) == e.etype && Val16(w[2..]) == |e.body|
            && w[4..4 + |e.body|] == e.body && w[4 + |e.body|..] == rest
  {
    var w := PrintExt(e) + rest;
    Val16OfU16(e.etype);
    assert w[2..] == Vec16(e.body) + rest;
    Val16Vec16(e.body, rest);
  }

  lemma {:induction false} ScanPrinted(es: seq<Ext>, tail: seq<byte>, found: Found)
    requires ExtsFit(es) && |tail| < 4
    ensures Scan(PrintExts(es) + tail, found) == Some(Meaning(es, found))
  {
    if es == [] {
      assert PrintExts(es) + tail == tail;
    } else {
      var rest := PrintExts(es[1..]) + tail;
      assert PrintExts(es) + tail == PrintExt(es[0]) + rest;
      HeadExt(es[0], rest);
      ScanPrinted(es[1..], tail, Note(found, es[0].etype, es[0].body));
    }
  }

  function BlockMeaning(b: Block): Found {
    if b.NoBlock? then Found([], None) else Meaning(b.es, Found([], None))
  }

  lemma BlockParses(b: Block)
    requires BlockFits(b)
    ensures ParseBlock(PrintBlock(b)) == Some(BlockMeaning(b))
  {
    if b.Block? {
      Val16Vec16(PrintExts(b.es) + b.tail, b.junk);
      ScanPrinted(b.es, b.tail, Found([], None));
    }
  }

  function Info(sh: Shape): Hello {
    var found := BlockMeaning(sh.block);
    Hello(sh.random, sh.sid, found.name, found.share)
  }

  lemma FieldsParse(sh: Shape)
    requires FieldsFit(sh)
    ensures ParseFields(sh.random, PrintFields(sh)) == Ok(Info(sh))
  {
    var compression := Vec8(sh.compression) + PrintBlock(sh.block);
    Take8Vec8(sh.sid, Vec16(sh.ciphers) + compression);
    Take16Vec16(sh.ciphers, compression);
    Take8Vec8(sh.compression, PrintBlock(sh.block));
    BlockParses(sh.block);
  }

  lemma BodyParses(sh: Shape)
    requires FieldsFit(sh)
    ensures ParseBody(PrintBody(sh)) == Ok(Info(sh))
  {
    var p := PrintBody(sh);
    assert p[2..34] == sh.random && p[34..] == PrintFields(sh);
    FieldsParse(sh);
  }

  lemma MessageParses(p: seq<byte>, slack: seq<byte>)
    requires |p| < 65536
    ensures ParseHandshake(Message(p, slack)) == ParseBody(p)
  {
    var b := Message(p, slack);
    Val24OfU24(|p|);
    assert b[1..] == U24(|p|) + (p + slack);
    assert Val24(b[1..]) == |p|;
    assert b[4..4 + |p|] == p;
  }

  lemma RecordParses(version: seq<byte>, b: seq<byte>, after: seq<byte>)
    requires |version| == 2 && 4 <= |b| < 65536
    ensures Parse(Record(version, b, after)) == ParseHandshake(b)
  {
    var w := Record(version, b, after);
    Val16OfU16(|b|);
    assert w[3..] == U16(|b|) + (b + after);
    assert Val16(w[3..]) == |b|;
    assert w[5..5 + |b|] == b;
  }

  /** Every printed shape is accepted, and its fields are read back. */
  lemma PrintedParses(sh: Shape)
    requires Fits(sh)
    ensures Parse(Print(sh)) == Ok(Info(sh))
  {
    BodyParses(sh);
    MessageParses(PrintBody(sh), sh.slack);
    RecordParses(sh.recVersion, Payload(sh), sh.after);
  }

  // ---------- accepted bytes are printed ----------

  lemma Take8IsVec8(p: seq<byte>)
    requires Take8(p).Some?
    ensures var f := Take8(p).value; |f.field| < 256 && p == Vec8(f.field) + f.rest
  {
  }

  lemma Take16IsVec16(p: seq<byte>)
    requires Take16(p).Some?
    ensures var f := Take16(p).value; |f.field| < 65536 && p == Vec16(f.field) + f.rest
  {
    U16OfVal16(p);
  }

  lemma FirstIsPrinted(ext: seq<byte>)
    requires |ext| >= 4 && |ext| >= 4 + Val16(ext[2..])
    ensures var n := Val16(ext[2..]);
            ext[..4 + n] == PrintExt(Ext(Val16(ext), ext[4..4 + n]))
  {
    U16OfVal16(ext);
    U16OfVal16(ext[2..]);
    assert ext[2..][..2] == ext[2..4];
  }

  /** An accepted extension block is a list of extensions and fewer than four ignored bytes. */
  lemma {:induction false} ScannedIsPrinted(ext: seq<byte>, found: Found) returns (es: seq<Ext>, tail: seq<byte>)
    requires Scan(ext, found).Some?
    ensures ExtsFit(es) && |tail| < 4 && ext == PrintExts(es) + tail
    decreases |ext|
  {
    if |ext| < 4 {
      es, tail := [], ext;
    } else {
      var n := Val16(ext[2..]);
      var e := Ext(Val16(ext), ext[4..4 + n]);
      var more;
      more, tail := ScannedIsPrinted(ext[4 + n..], Note(found, e.etype, e.body));
      FirstIsPrinted(ext);
      es := [e] + more;
      PrintCons(ext, 4 + n, e, more, tail);
    }
  }

  lemma PrintCons(ext: seq<byte>, n: nat, e: Ext, more: seq<Ext>, tail: seq<byte>)
    requires n <= |ext| && ext[..n] == PrintExt(e) && ext[n..] == PrintExts(more) + tail
    requires ExtsFit(more) && e.etype < 65536 && |e.body| < 65536
    ensures ext == PrintExts([e] + more) + tail && ExtsFit([e] + more)
  {
    assert ([e] + more)[1..] == more;
    assert ext == ext[..n] + ext[n..];
  }

  lemma BlockIsPrinted(p: seq<byte>) returns (b: Block)
    requires ParseBlock(p).Some?
    ensures BlockFits(b) && p == PrintBlock(b)
  {
    if |p| < 2 {
      b := NoBlock(p);
    } else {
      var n := Val16(p);
      var es, tail := ScannedIsPrinted(p[2..2 + n], Found([], None));
      b := Block(es, tail, p[2 + n..]);
      U16OfVal16(p);
      assert p == p[..2] + p[2..2 + n] + p[2 + n..];
    }
  }

  lemma FieldsArePrinted(random: seq<byte>, p: seq<byte>) returns (sh: Shape)
    requires |random| == 32 && ParseFields(random, p).Ok?
    ensures FieldsFit(sh) && sh.random == random && p == PrintFields(sh)
  {
    var sid := Take8(p).value;
    var ciphers := Take16(sid.rest).value;
    var compression := Take8(ciphers.rest).value;
    Take8IsVec8(p);
    Take16IsVec16(sid.rest);
    Take8IsVec8(ciphers.rest);
    var b := BlockIsPrinted(compression.rest);
    sh := Shape([0, 0], [0, 0], random, sid.field, ciphers.field, compression.field, b, [], []);
  }

  lemma BodyIsPrinted(p: seq<byte>) returns (sh: Shape)
    requires ParseBody(p).Ok?
    ensures FieldsFit(sh) && p == PrintBody(sh)
  {
    sh := FieldsArePrinted(p[2..34], p[34..]);
    sh := sh.(hsVersion := p[..2]);
    assert p == p[..2] + (p[2..34] + p[34..]);
  }

  lemma MessageIsPrinted(b: seq<byte>)
    requires |b| >= 4 && b[0] == 1 && 4 + Val24(b[1..]) <= |b|
    ensures var n := Val24(b[1..]);
            b == Message(b[4..4 + n], b[4 + n..])
  {
    var n := Val24(b[1..]);
    U24OfVal24(b[1..]);
    assert b[1..][..3] == b[1..4];
    assert b == [b[0]] + (b[1..4] + (b[4..4 + n] + b[4 + n..]));
  }

  lemma RecordIsPrinted(w: seq<byte>)
    requires |w| >= 5 && w[0] == 0x16 && 5 + Val16(w[3..]) <= |w|
    ensures var n := Val16(w[3..]);
            w == Record(w[1..3], w[5..5 + n], w[5 + n..])
  {
    var n := Val16(w[3..]);
    U16OfVal16(w[3..]);
    assert w[3..][..2] == w[3..5];
    assert w == [w[0]] + (w[1..3] + (w[3..5] + (w[5..5 + n] + w[5 + n..])));
  }

  lemma HandshakeIsPrinted(b: seq<byte>) returns (sh: Shape)
    requires |b| >= 4 && ParseHandshake(b).Ok?
    ensures FieldsFit(sh) && b == Payload(sh)
  {
    var n := Val24(b[1..]);
    sh := BodyIsPrinted(b[4..4 + n]);
    sh := sh.(slack := b[4 + n..]);
    MessageIsPrinted(b);
  }

  /** Every accepted record is the printed form of some shape. */
  lemma AcceptedIsPrinted(record: seq<byte>) returns (sh: Shape)
    requires Parse(record).Ok?
    ensures Fits(sh) && record == Print(sh)
  {
    var n := Val16(record[3..]);
    sh := HandshakeIsPrinted(record[5..5 + n]);
    sh := sh.(recVersion := record[1..3], after := record[5 + n..]);
    RecordIsPrinted(record);
  }

  /** The parser accepts exactly the printed shapes, and reads exactly their fields. */
  lemma ParserAcceptsExactly(record: seq<byte>, info: Hello)
    ensures Parse(record) == Ok(info) <==> exists sh :: Fits(sh) && record == Print(sh) && info == Info(sh)
  {
    if Parse(record) == Ok(info) {
      var sh := AcceptedIsPrinted(record);
      PrintedParses(sh);
    }
    forall sh | Fits(sh) && record == Print(sh)
      ensures Parse(record) == Ok(Info(sh))
    {
      PrintedParses(sh);
    }
  }

  /** Why anything else is refused: it is no handshake record, or no such hello. */
  lemma RefusedExactly(record: seq<byte>)
    ensures Parse(record) == Err(NotTLS) <==> |record| < 5 || record[0] != 22
    ensures Parse(record) == Err(BadHello) <==>
              |record| >= 5 && record[0] == 22 && !exists sh :: Fits(sh) && record == Print(sh)
  {
    if Parse(record).Ok? {
      var sh := AcceptedIsPrinted(record);
    }
    forall sh | Fits(sh) && record == Print(sh)
      ensures Parse(record).Ok?
    {
      PrintedParses(sh);
    }
  }
}
