/** The second ClientHello walker of the repository, and its agreement with the parser. */
module RealitySni {
  import opened Bytes
  import opened ClientHello
  import opened HelloGrammar
  import opened HelloMeaning

  datatype Walked = Name(name: seq<byte>) | Bad

  /** The name list of sniFromExtension: like FirstHost, but a cut entry is an error. */
  function StrictHost(list: seq<byte>): Walked {
    if |list| < 3 then Name([])
    else
      var n := Val16(list[1..]);
      if |list| < 3 + n then Bad
      else if list[0] == 0 then Name(list[3..3 + n])
      else StrictHost(list[3 + n..])
  }

  function StrictSni(ext: seq<byte>): Walked {
    if |ext| < 2 || |ext| < 2 + Val16(ext) then Bad else StrictHost(ext[2..2 + Val16(ext)])
  }

  /** The walk stops at the first server_name and never looks at what follows it. */
  function WalkExts(p: seq<byte>): Walked {
    if |p| < 4 then Name([])
    else
      var n := Val16(p[2..]);
      if |p| < 4 + n then Bad
      else if Val16(p) == EXT_SERVER_NAME then StrictSni(p[4..4 + n])
      else WalkExts(p[4 + n..])
  }

  /** Skips a field whose length takes one byte or two. */
  function SkipField(p: seq<byte>, width: nat): Option<seq<byte>> {
    if |p| < (if width == 1 then 1 else 2) then None
    else
      var n := if width == 1 then p[0] as int else Val16(p);
      var at := if width == 1 then 1 else 2;
      if |p| - at < n then None else Some(p[at + n..])
  }

  function SkipAll(p: seq<byte>, widths: seq<nat>): Option<seq<byte>> {
    if widths == [] then Some(p)
    else
      match SkipField(p, widths[0])
      case None => None
      case Some(rest) => SkipAll(rest, widths[1..])
  }

  function WalkBlock(p: seq<byte>): Walked {
    if |p| < 2 then Name([])
    else if |p| < 2 + Val16(p) then Bad
    else WalkExts(p[2..2 + Val16(p)])
  }

  /** sniFromClientHello over a record's payload; the handshake length is not looked at. */
  function Walk(b: seq<byte>): Walked {
    if |b| < 38 || b[0] != 1 then Bad
    else
      match SkipAll(b[38..], [1, 2, 1])
      case None => Bad
      case Some(p) => WalkBlock(p)
  }

  // ---------- the loops ----------

  method SniFromExtension(ext: seq<byte>) returns (r: Walked)
    ensures r == StrictSni(ext)
  {
    if |ext| < 2 {
      return Bad;
    }
    var n := Val16(ext);
    if |ext| - 2 < n {
      return Bad;
    }
    var e := ext[2..2 + n];
    while |e| >= 3
      invariant StrictSni(ext) == StrictHost(e)
      decreases |e|
    {
      var nameType, nl := e[0], Val16(e[1..]);
      var rest := e[3..];
      if |rest| < nl {
        return Bad;
      }
      assert rest[..nl] == e[3..3 + nl] && rest[nl..] == e[3 + nl..];
      if nameType == 0 {
        return Name(rest[..nl]);
      }
      e := rest[nl..];
    }
    return Name([]);
  }

  method SniFromClientHello(b: seq<byte>) returns (r: Walked)
    ensures r == Walk(b)
  {
    if |b| < 4 || b[0] != 1 {
      return Bad;
    }
    var p := b[4..];
    if |p| < 34 {
      return Bad;
    }
    p := p[34..];
    assert p == b[38..];
    var widths := [1, 2, 1];
    for i := 0 to 3
      invariant SkipAll(b[38..], widths) == SkipAll(p, widths[i..])
    {
      var field := widths[i];
      assert widths[i..][0] == field && widths[i..][1..] == widths[i + 1..];
      if |p| < field {
        return Bad;
      }
      var n := if field == 1 then p[0] as int else Val16(p);
      if |p| - field < n {
        return Bad;
      }
      p := p[field + n..];
    }
    assert widths[3..] == [];
    if |p| < 2 {
      return Name([]);
    }
    var extLen := Val16(p);
    if |p| - 2 < extLen {
      return Bad;
    }
    p := p[2..2 + extLen];
    r := WalkLoop(p);
  }

  /** The extension loop of sniFromClientHello. */
  method WalkLoop(block: seq<byte>) returns (r: Walked)
    ensures r == WalkExts(block)
  {
    var p := block;
    while |p| >= 4
      invariant WalkExts(block) == WalkExts(p)
      decreases |p|
    {
      var extType, n := Val16(p), Val16(p[2..]);
      var rest := p[4..];
      if |rest| < n {
        return Bad;
      }
      var ext := rest[..n];
      assert ext == p[4..4 + n] && rest[n..] == p[4 + n..];
      p := rest[n..];
      if extType == EXT_SERVER_NAME {
        r := SniFromExtension(ext);
        return;
      }
    }
    return Name([]);
  }

  // ---------- the walk over a printed hello ----------

  function FirstName(es: seq<Ext>): Walked {
    if es == [] then Name([])
    else if es[0].etype == EXT_SERVER_NAME then StrictSni(es[0].body)
    else FirstName(es[1..])
  }

  lemma {:induction false} WalkPrinted(es: seq<Ext>, tail: seq<byte>)
    requires ExtsFit(es) && |tail| < 4
    ensures WalkExts(PrintExts(es) + tail) == FirstName(es)
  {
    if es == [] {
      assert PrintExts(es) + tail == tail;
    } else {
      var rest := PrintExts(es[1..]) + tail;
      assert PrintExts(es) + tail == PrintExt(es[0]) + rest;
      HeadExt(es[0], rest);
      WalkPrinted(es[1..], tail);
    }
  }

  lemma SkipsField(p: seq<byte>)
    ensures SkipField(p, 1) == match Take8(p) case None => None case Some(f) => Some(f.rest)
    ensures SkipField(p, 2) == match Take16(p) case None => None case Some(f) => Some(f.rest)
  {
  }

  lemma SkipPrinted(sid: seq<byte>, ciphers: seq<byte>, compression: seq<byte>, rest: seq<byte>)
    requires |sid| < 256 && |ciphers| < 65536 && |compression| < 256
    ensures SkipAll(Vec8(sid) + (Vec16(ciphers) + (Vec8(compression) + rest)), [1, 2, 1]) == Some(rest)
  {
    var c := Vec8(compression) + rest;
    var b := Vec16(ciphers) + c;
    var a := Vec8(sid) + b;
    Take8Vec8(sid, b);
    Take16Vec16(ciphers, c);
    Take8Vec8(compression, rest);
    SkipsField(a);
    SkipsField(b);
    SkipsField(c);
    assert [1, 2, 1][1..] == [2, 1] && [2, 1][1..] == [1];
    assert SkipAll(c, [1]) == Some(rest);
  }

  lemma MessageFields(p: seq<byte>, slack: seq<byte>)
    requires |p| >= 34
    ensures var b := Message(p, slack);
            |b| >= 38 && b[0] == 1 && b[38..] == p[34..] + slack
  {
  }

  /** Where the walk of a printed hello ends up: the block, and the bytes behind it. */
  lemma WalkReachesBlock(sh: Shape)
    requires Fits(sh)
    ensures Walk(Payload(sh)) == WalkBlock(PrintBlock(sh.block) + sh.slack)
  {
    var (block, body) := (PrintBlock(sh.block), PrintBody(sh));
    MessageFields(body, sh.slack);
    assert body[34..] == PrintFields(sh);
    var c := Vec8(sh.compression) + (block + sh.slack);
    assert PrintFields(sh) + sh.slack == Vec8(sh.sid) + (Vec16(sh.ciphers) + c);
    SkipPrinted(sh.sid, sh.ciphers, sh.compression, block + sh.slack);
  }

  lemma BlockWalked(es: seq<Ext>, tail: seq<byte>, junk: seq<byte>)
    requires BlockFits(Block(es, tail, junk))
    ensures WalkBlock(PrintBlock(Block(es, tail, junk))) == FirstName(es)
  {
    Val16Vec16(PrintExts(es) + tail, junk);
    WalkPrinted(es, tail);
  }

  lemma PrintThenSlack(es: seq<Ext>, tail: seq<byte>, junk: seq<byte>, slack: seq<byte>)
    ensures PrintBlock(Block(es, tail, junk)) + slack == PrintBlock(Block(es, tail, junk + slack))
  {
    var inner := Vec16(PrintExts(es) + tail);
    assert (inner + junk) + slack == inner + (junk + slack);
  }

  lemma WalkOfPrinted(sh: Shape)
    requires Fits(sh) && sh.block.Block?
    ensures Walk(Payload(sh)) == FirstName(sh.block.es)
  {
    WalkReachesBlock(sh);
    var b := sh.block;
    PrintThenSlack(b.es, b.tail, b.junk, sh.slack);
    BlockWalked(b.es, b.tail, b.junk + sh.slack);
  }

  // ---------- the language the walker accepts ----------

  /** A list of other names, then the host name and anything, or fewer than three bytes and no name. */
  ghost predicate Lists(list: seq<byte>, ns: seq<ServerName>, name: seq<byte>, more: seq<byte>) {
    && (forall i :: 0 <= i < |ns| ==> ns[i].kind != 0 && |ns[i].name| < 65536)
    && (|| (|name| < 65536 && list == PrintNames(ns) + ([0] + Vec16(name) + more))
        || (name == [] && |more| < 3 && list == PrintNames(ns) + more))
  }

  lemma {:induction false} NamesSkipped(ns: seq<ServerName>, rest: seq<byte>)
    requires forall i :: 0 <= i < |ns| ==> ns[i].kind != 0 && |ns[i].name| < 65536
    ensures StrictHost(PrintNames(ns) + rest) == StrictHost(rest)
  {
    if ns == [] {
      assert PrintNames(ns) + rest == rest;
    } else {
      var tail := PrintNames(ns[1..]) + rest;
      assert PrintNames(ns) + rest == [ns[0].kind] + Vec16(ns[0].name) + tail;
      HeadName(ns[0], tail);
      NamesSkipped(ns[1..], rest);
    }
  }

  lemma {:induction false} ListedIsFound(list: seq<byte>, ns: seq<ServerName>, name: seq<byte>, more: seq<byte>)
    requires Lists(list, ns, name, more)
    ensures StrictHost(list) == Name(name)
  {
    if |name| < 65536 && list == PrintNames(ns) + ([0] + Vec16(name) + more) {
      NamesSkipped(ns, [0] + Vec16(name) + more);
      HeadName(ServerName(0, name), more);
    } else {
      NamesSkipped(ns, more);
    }
  }

  lemma FirstNameIsPrinted(list: seq<byte>)
    requires |list| >= 3 && |list| >= 3 + Val16(list[1..])
    ensures var n := Val16(list[1..]);
            list == [list[0]] + Vec16(list[3..3 + n]) + list[3 + n..]
  {
    U16OfVal16(list[1..]);
    assert list[1..][..2] == list[1..3];
  }

  lemma {:induction false} FoundIsListed(list: seq<byte>, name: seq<byte>) returns (ns: seq<ServerName>, more: seq<byte>)
    requires StrictHost(list) == Name(name)
    ensures Lists(list, ns, name, more)
    decreases |list|
  {
    if |list| < 3 {
      ns, more := [], list;
      assert list == PrintNames(ns) + more;
    } else {
      var n := Val16(list[1..]);
      var (first, rest) := (list[3..3 + n], list[3 + n..]);
      FirstNameIsPrinted(list);
      if list[0] == 0 {
        ns, more := [], rest;
        assert list == PrintNames(ns) + ([0] + Vec16(name) + more);
      } else {
        var tail;
        tail, more := FoundIsListed(rest, name);
        ns := [ServerName(list[0], first)] + tail;
        assert ns[1..] == tail;
        Longer(list, list[0], first, rest, PrintNames(tail), name, more);
      }
    }
  }

  lemma Longer(list: seq<byte>, kind: byte, first: seq<byte>, rest: seq<byte>, names: seq<byte>, name: seq<byte>, more: seq<byte>)
    requires list == [kind] + Vec16(first) + rest
    ensures rest == names + more ==> list == ([kind] + Vec16(first) + names) + more
    ensures var found := [0] + Vec16(name) + more;
            rest == names + found ==> list == ([kind] + Vec16(first) + names) + found
  {
  }

  /** A server_name extension of any bytes yields the name exactly when its list has it first. */
  lemma StrictSniExactly(ext: seq<byte>, name: seq<byte>)
    ensures StrictSni(ext) == Name(name) <==>
              exists list, junk, ns, more :: SniPrinted(ext, list, junk) && Lists(list, ns, name, more)
  {
    if StrictSni(ext) == Name(name) {
      var n := Val16(ext);
      Take16IsVec16(ext);
      var ns, more := FoundIsListed(ext[2..2 + n], name);
      assert SniPrinted(ext, ext[2..2 + n], ext[2 + n..]);
    }
    forall list, junk, ns, more | SniPrinted(ext, list, junk) && Lists(list, ns, name, more)
      ensures StrictSni(ext) == Name(name)
    {
      Val16Vec16(list, junk);
      ListedIsFound(list, ns, name, more);
    }
  }

  ghost predicate SniPrinted(ext: seq<byte>, list: seq<byte>, junk: seq<byte>) {
    |list| < 65536 && ext == Vec16(list) + junk
  }

  /** Extensions other than server_name, then either one and anything, or fewer than four bytes. */
  ghost predicate Walks(block: seq<byte>, es: seq<Ext>, body: seq<byte>, more: seq<byte>, name: seq<byte>) {
    && ExtsFit(es) && Absent(es, EXT_SERVER_NAME)
    && (|| (|body| < 65536 && block == PrintExts(es) + (PrintExt(Ext(0, body)) + more) && StrictSni(body) == Name(name))
        || (name == [] && |more| < 4 && block == PrintExts(es) + more))
  }

  lemma {:induction false} ExtsSkipped(es: seq<Ext>, rest: seq<byte>)
    requires ExtsFit(es) && Absent(es, EXT_SERVER_NAME)
    ensures WalkExts(PrintExts(es) + rest) == WalkExts(rest)
  {
    if es == [] {
      assert PrintExts(es) + rest == rest;
    } else {
      var tail := PrintExts(es[1..]) + rest;
      assert PrintExts(es) + rest == PrintExt(es[0]) + tail;
      HeadExt(es[0], tail);
      ExtsSkipped(es[1..], rest);
    }
  }

  lemma {:induction false} WalkedExts(block: seq<byte>, name: seq<byte>) returns (es: seq<Ext>, body: seq<byte>, more: seq<byte>)
    requires WalkExts(block) == Name(name)
    ensures Walks(block, es, body, more, name)
    decreases |block|
  {
    if |block| < 4 {
      es, body, more := [], [], block;
      assert block == PrintExts(es) + more;
    } else {
      var n := Val16(block[2..]);
      var (e, rest) := (Ext(Val16(block), block[4..4 + n]), block[4 + n..]);
      FirstIsPrinted(block);
      assert block == PrintExt(e) + rest;
      if e.etype == EXT_SERVER_NAME {
        es, body, more := [], e.body, rest;
        assert block == PrintExts(es) + (PrintExt(Ext(0, body)) + more);
      } else {
        var tail;
        tail, body, more := WalkedExts(rest, name);
        es := [e] + tail;
        assert es[1..] == tail;
        assert PrintExts(es) == PrintExt(e) + PrintExts(tail);
        Regroup(PrintExt(e), PrintExts(tail), PrintExt(Ext(0, body)) + more);
        Regroup(PrintExt(e), PrintExts(tail), more);
      }
    }
  }

  lemma WalkExtsExactly(block: seq<byte>, name: seq<byte>)
    ensures WalkExts(block) == Name(name) <==> exists es, body, more :: Walks(block, es, body, more, name)
  {
    if WalkExts(block) == Name(name) {
      var es, body, more := WalkedExts(block, name);
    }
    forall es, body, more | Walks(block, es, body, more, name)
      ensures WalkExts(block) == Name(name)
    {
      if |body| < 65536 && block == PrintExts(es) + (PrintExt(Ext(0, body)) + more) && StrictSni(body) == Name(name) {
        ExtsSkipped(es, PrintExt(Ext(0, body)) + more);
        HeadExt(Ext(0, body), more);
      } else {
        ExtsSkipped(es, more);
      }
    }
  }

  /** A message of type 1, 37 bytes of any kind, three length-prefixed fields, and the rest. */
  datatype Walkable = Walkable(head: seq<byte>, sid: seq<byte>, ciphers: seq<byte>, compression: seq<byte>, rest: seq<byte>)

  ghost predicate IsWalkable(b: seq<byte>, w: Walkable) {
    && |w.head| == 37 && |w.sid| < 256 && |w.ciphers| < 65536 && |w.compression| < 256
    && b == ([1] + w.head) + (Vec8(w.sid) + (Vec16(w.ciphers) + (Vec8(w.compression) + w.rest)))
  }

  /** What follows the fields: fewer than two bytes and no name, or a block of extensions. */
  ghost predicate BlockWalks(p: seq<byte>, block: seq<byte>, junk: seq<byte>, name: seq<byte>) {
    || (|p| < 2 && name == [])
    || (|block| < 65536 && p == Vec16(block) + junk && WalkExts(block) == Name(name))
  }

  lemma WalkBlockExactly(p: seq<byte>, name: seq<byte>)
    ensures WalkBlock(p) == Name(name) <==> exists block, junk :: BlockWalks(p, block, junk, name)
  {
    if WalkBlock(p) == Name(name) {
      if |p| < 2 {
        assert BlockWalks(p, [], [], name);
      } else {
        Take16IsVec16(p);
        assert BlockWalks(p, p[2..2 + Val16(p)], p[2 + Val16(p)..], name);
      }
    }
    forall block, junk | BlockWalks(p, block, junk, name)
      ensures WalkBlock(p) == Name(name)
    {
      if |p| >= 2 {
        Val16Vec16(block, junk);
      }
    }
  }

  lemma WalkableWalks(b: seq<byte>, w: Walkable)
    requires IsWalkable(b, w)
    ensures Walk(b) == WalkBlock(w.rest)
  {
    SkipPrinted(w.sid, w.ciphers, w.compression, w.rest);
    assert b[38..] == Vec8(w.sid) + (Vec16(w.ciphers) + (Vec8(w.compression) + w.rest));
  }

  lemma SkipCons(p: seq<byte>, width: nat, widths: seq<nat>)
    ensures SkipAll(p, [width] + widths)
              == match SkipField(p, width) case None => None case Some(rest) => SkipAll(rest, widths)
  {
    assert ([width] + widths)[1..] == widths;
  }

  lemma ThreeSkips(p: seq<byte>) returns (sid: Field, ciphers: Field, compression: Field)
    requires SkipAll(p, [1, 2, 1]).Some?
    ensures Take8(p) == Some(sid) && Take16(sid.rest) == Some(ciphers) && Take8(ciphers.rest) == Some(compression)
    ensures SkipAll(p, [1, 2, 1]) == Some(compression.rest)
    ensures |sid.field| < 256 && |ciphers.field| < 65536 && |compression.field| < 256
    ensures p == Vec8(sid.field) + (Vec16(ciphers.field) + (Vec8(compression.field) + compression.rest))
  {
    assert [1, 2, 1] == [1] + [2, 1] && [2, 1] == [2] + [1] && [1] == [1] + [];
    SkipCons(p, 1, [2, 1]);
    SkipsField(p);
    sid := Take8(p).value;
    SkipCons(sid.rest, 2, [1]);
    SkipsField(sid.rest);
    ciphers := Take16(sid.rest).value;
    SkipCons(ciphers.rest, 1, []);
    SkipsField(ciphers.rest);
    compression := Take8(ciphers.rest).value;
    Take8IsVec8(p);
    Take16IsVec16(sid.rest);
    Take8IsVec8(ciphers.rest);
  }

  lemma WalkedIsWalkable(b: seq<byte>) returns (w: Walkable)
    requires Walk(b).Name?
    ensures IsWalkable(b, w)
  {
    var sid, ciphers, compression := ThreeSkips(b[38..]);
    w := Walkable(b[1..38], sid.field, ciphers.field, compression.field, compression.rest);
    assert b == ([1] + b[1..38]) + b[38..];
  }

  /**
   * The whole language of the walker: any bytes walk to the name exactly when they are such a
   * message whose rest does. With WalkExtsExactly and StrictSniExactly this says which.
   */
  lemma WalkExactly(b: seq<byte>, name: seq<byte>)
    ensures Walk(b) == Name(name) <==>
              exists w, block, junk :: IsWalkable(b, w) && BlockWalks(w.rest, block, junk, name)
  {
    if Walk(b) == Name(name) {
      var w := WalkedIsWalkable(b);
      WalkableWalks(b, w);
      WalkBlockExactly(w.rest, name);
      var block, junk :| BlockWalks(w.rest, block, junk, name);
    }
    forall w, block, junk | IsWalkable(b, w) && BlockWalks(w.rest, block, junk, name)
      ensures Walk(b) == Name(name)
    {
      WalkableWalks(b, w);
      WalkBlockExactly(w.rest, name);
    }
  }

  /** The strict reading of a name list refines the lenient one. */
  lemma {:induction false} StrictRefines(list: seq<byte>)
    ensures FirstHost(list) == if StrictHost(list).Name? then StrictHost(list).name else []
    decreases |list|
  {
    if |list| >= 3 && |list| >= 3 + Val16(list[1..]) {
      StrictRefines(list[3 + Val16(list[1..])..]);
    }
  }

  lemma StrictSniRefines(ext: seq<byte>)
    ensures Sni(ext) == if StrictSni(ext).Name? then StrictSni(ext).name else []
  {
    if Take16(ext).Some? {
      StrictRefines(Take16(ext).value.field);
    }
  }

  lemma {:induction false} FirstNameAbsent(es: seq<Ext>)
    requires Absent(es, EXT_SERVER_NAME)
    ensures FirstName(es) == Name([])
  {
    if es != [] {
      FirstNameAbsent(es[1..]);
    }
  }

  /**
   * The two walkers on every record the parser accepts (see AcceptedIsPrinted), with at most
   * one server_name: the same name, or the walker reports an error and the name is empty.
   * They may differ otherwise only when no extension block precedes bytes behind the message.
   */
  lemma WalkersAgree(sh: Shape, info: Hello)
    requires Fits(sh) && Parse(Print(sh)) == Ok(info)
    requires sh.block.Block? || sh.slack == []
    requires sh.block.Block? ==>
               Absent(sh.block.es, EXT_SERVER_NAME) || exists i :: OnlyAt(sh.block.es, EXT_SERVER_NAME, i)
    ensures Walk(Payload(sh)) == Name(info.serverName) || (Walk(Payload(sh)) == Bad && info.serverName == [])
  {
    PrintedParses(sh);
    if sh.block.NoBlock? {
      WalkersAgreeExactly(sh, 0, 0);
      assert sh.block.junk + sh.slack == sh.block.junk;
    } else if Absent(sh.block.es, EXT_SERVER_NAME) {
      WalkersAgreeExactly(sh, 0, 0);
    } else {
      var i: nat :| OnlyAt(sh.block.es, EXT_SERVER_NAME, i);
      FirstAgainstLast(sh, i, i);
      StrictSniRefines(sh.block.es[i].body);
    }
  }

  lemma {:induction false} FirstNameAt(es: seq<Ext>, i: nat)
    requires FirstAt(es, EXT_SERVER_NAME, i)
    ensures FirstName(es) == StrictSni(es[i].body)
  {
    if i > 0 {
      assert forall k :: 0 <= k < i - 1 ==> es[1..][k] == es[k + 1];
      FirstNameAt(es[1..], i - 1);
    }
  }

  /** Of several server_name extensions the walker reads the first and the parser the last. */
  lemma FirstAgainstLast(sh: Shape, i: nat, j: nat)
    requires Fits(sh) && sh.block.Block?
    requires FirstAt(sh.block.es, EXT_SERVER_NAME, i) && LastAt(sh.block.es, EXT_SERVER_NAME, j)
    ensures Walk(Payload(sh)) == StrictSni(sh.block.es[i].body)
    ensures Parse(Print(sh)).Ok? && Parse(Print(sh)).info.serverName == Sni(sh.block.es[j].body)
  {
    PrintedParses(sh);
    WalkOfPrinted(sh);
    FirstNameAt(sh.block.es, i);
    MeaningLast(sh.block.es, Found([], None), j);
  }

  /** The parser accepts, and the walker gives the same name without error. */
  ghost predicate SameName(sh: Shape)
    requires Fits(sh)
  {
    Parse(Print(sh)).Ok? && Walk(Payload(sh)) == Name(Parse(Print(sh)).info.serverName)
  }

  /**
   * The two walkers on every accepted record (every accepted record is Print of a shape that
   * fits, see AcceptedIsPrinted). Without a block they agree exactly when what is left of the
   * record holds no name in the walker's eyes; without a server_name always; otherwise exactly
   * when the first server_name, read strictly, has the name of the last. With a single one that
   * is when its list is not cut before the name.
   */
  lemma WalkersAgreeExactly(sh: Shape, i: nat, j: nat)
    requires Fits(sh)
    ensures sh.block.NoBlock? ==> (SameName(sh) <==> WalkBlock(sh.block.junk + sh.slack) == Name([]))
    ensures sh.block.Block? && Absent(sh.block.es, EXT_SERVER_NAME) ==> SameName(sh)
    ensures sh.block.Block? && FirstAt(sh.block.es, EXT_SERVER_NAME, i) && LastAt(sh.block.es, EXT_SERVER_NAME, j) ==>
              && (SameName(sh) <==> StrictSni(sh.block.es[i].body) == Name(Sni(sh.block.es[j].body)))
              && (i == j ==> (SameName(sh) <==> StrictSni(sh.block.es[i].body).Name?))
  {
    PrintedParses(sh);
    if sh.block.NoBlock? {
      WalkReachesBlock(sh);
    } else if Absent(sh.block.es, EXT_SERVER_NAME) {
      WalkOfPrinted(sh);
      MeaningAbsent(sh.block.es, Found([], None));
      FirstNameAbsent(sh.block.es);
    } else if FirstAt(sh.block.es, EXT_SERVER_NAME, i) && LastAt(sh.block.es, EXT_SERVER_NAME, j) {
      FirstAgainstLast(sh, i, j);
      StrictSniRefines(sh.block.es[i].body);
    }
  }

  /** A printed list reads the same strictly. */
  lemma {:induction false} StrictNames(ns: seq<ServerName>)
    requires forall i :: 0 <= i < |ns| ==> |ns[i].name| < 65536
    ensures StrictHost(PrintNames(ns)) == Name(FirstHostName(ns))
  {
    if ns != [] {
      HeadName(ns[0], PrintNames(ns[1..]));
      StrictNames(ns[1..]);
    }
  }

  lemma StrictNameExt(ns: seq<ServerName>)
    requires NamesFit(ns)
    ensures StrictSni(NameExt(ns).body) == Name(FirstHostName(ns))
  {
    assert Vec16(PrintNames(ns)) + [] == Vec16(PrintNames(ns));
    Val16Vec16(PrintNames(ns), []);
    StrictNames(ns);
  }

  /**
   * In particular two printed lists set the walkers at odds whenever their first host names
   * differ, be one of them missing.
   */
  lemma DuplicatesDisagree(sh: Shape, i: nat, j: nat, a: seq<ServerName>, b: seq<ServerName>)
    requires Fits(sh) && sh.block.Block? && NamesFit(a) && NamesFit(b)
    requires FirstAt(sh.block.es, EXT_SERVER_NAME, i) && LastAt(sh.block.es, EXT_SERVER_NAME, j)
    requires sh.block.es[i] == NameExt(a) && sh.block.es[j] == NameExt(b)
    ensures Walk(Payload(sh)) == Name(FirstHostName(a))
    ensures Parse(Print(sh)).Ok? && Parse(Print(sh)).info.serverName == FirstHostName(b)
    ensures SameName(sh) <==> FirstHostName(a) == FirstHostName(b)
  {
    FirstAgainstLast(sh, i, j);
    StrictNameExt(a);
    NameExtParses(b);
  }

  /** A list of other names that breaks off within the entry behind them. */
  function CutList(ns: seq<ServerName>, kind: byte, n: nat, start: seq<byte>): seq<byte> {
    PrintNames(ns) + ([kind] + (U16(n) + start))
  }

  lemma {:induction false} CutListIsBad(ns: seq<ServerName>, kind: byte, n: nat, start: seq<byte>)
    requires |start| < n < 65536 && forall i :: 0 <= i < |ns| ==> ns[i].kind != 0 && |ns[i].name| < 65536
    ensures StrictHost(CutList(ns, kind, n, start)) == Bad
  {
    var w := CutList(ns, kind, n, start);
    if ns == [] {
      Val16OfU16(n);
      assert w == [kind] + (U16(n) + start);
      assert w[1..] == U16(n) + start;
      assert Val16(w[1..]) == n;
    } else {
      var rest := CutList(ns[1..], kind, n, start);
      assert w == [ns[0].kind] + Vec16(ns[0].name) + rest;
      HeadName(ns[0], rest);
      CutListIsBad(ns[1..], kind, n, start);
    }
  }

  /** A name list cut before a host name is an error to the walker, and no name to the parser. */
  lemma CutListDisagrees(sh: Shape, i: nat, ns: seq<ServerName>, kind: byte, n: nat, start: seq<byte>)
    requires Fits(sh) && sh.block.Block? && OnlyAt(sh.block.es, EXT_SERVER_NAME, i)
    requires |start| < n < 65536 && forall k :: 0 <= k < |ns| ==> ns[k].kind != 0 && |ns[k].name| < 65536
    requires |CutList(ns, kind, n, start)| < 65536 && sh.block.es[i].body == Vec16(CutList(ns, kind, n, start))
    ensures Walk(Payload(sh)) == Bad && !SameName(sh)
    ensures Parse(Print(sh)).Ok? && Parse(Print(sh)).info.serverName == []
  {
    var list := CutList(ns, kind, n, start);
    assert Vec16(list) + [] == Vec16(list);
    Val16Vec16(list, []);
    CutListIsBad(ns, kind, n, start);
    FirstAgainstLast(sh, i, i);
    StrictSniRefines(sh.block.es[i].body);
  }

  /** And so does a printed block behind a message without extensions. */
  lemma SlackDisagrees(sh: Shape, es: seq<Ext>, tail: seq<byte>, junk: seq<byte>, i: nat, ns: seq<ServerName>)
    requires Fits(sh) && sh.block == NoBlock([]) && BlockFits(Block(es, tail, junk)) && NamesFit(ns)
    requires sh.slack == PrintBlock(Block(es, tail, junk))
    requires FirstAt(es, EXT_SERVER_NAME, i) && es[i] == NameExt(ns) && FirstHostName(ns) != []
    ensures Walk(Payload(sh)) == Name(FirstHostName(ns)) && !SameName(sh)
    ensures Parse(Print(sh)).Ok? && Parse(Print(sh)).info.serverName == []
  {
    PrintedParses(sh);
    WalkReachesBlock(sh);
    assert sh.block.junk + sh.slack == sh.slack;
    BlockWalked(es, tail, junk);
    FirstNameAt(es, i);
    StrictNameExt(ns);
  }
}
