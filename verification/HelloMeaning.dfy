/** What a well-formed ClientHello yields, whatever the order of its extensions. */
module HelloMeaning {
  import opened Bytes
  import opened ClientHello
  import opened HelloGrammar

  // ---------- server_name, section 3 of RFC 6066 ----------

  datatype ServerName = ServerName(kind: byte, name: seq<byte>)

  function PrintNames(ns: seq<ServerName>): seq<byte> {
    if ns == [] then [] else [ns[0].kind] + Vec16(ns[0].name) + PrintNames(ns[1..])
  }

  function FirstHostName(ns: seq<ServerName>): seq<byte> {
    if ns == [] then []
    else if ns[0].kind == 0 then ns[0].name
    else FirstHostName(ns[1..])
  }

  predicate NamesFit(ns: seq<ServerName>) {
    |PrintNames(ns)| < 65536 && forall i :: 0 <= i < |ns| ==> |ns[i].name| < 65536
  }

  lemma HeadName(n: ServerName, rest: seq<byte>)
    requires |n.name| < 65536
    ensures var w := [n.kind] + Vec16(n.name) + rest;
            && |w| >= 3 && w[0] == n.kind && Val16(w[1..]) == |n.name|
            && w[3..3 + |n.name|] == n.name && w[3 + |n.name|..] == rest
  {
    var w := [n.kind] + Vec16(n.name) + rest;
    assert w[1..] == Vec16(n.name) + rest;
    Val16Vec16(n.name, rest);
  }

  lemma {:induction false} NamesParse(ns: seq<ServerName>)
    requires forall i :: 0 <= i < |ns| ==> |ns[i].name| < 65536
    ensures FirstHost(PrintNames(ns)) == FirstHostName(ns)
  {
    if ns != [] {
      HeadName(ns[0], PrintNames(ns[1..]));
      NamesParse(ns[1..]);
    }
  }

  function NameExt(ns: seq<ServerName>): Ext {
    Ext(EXT_SERVER_NAME, Vec16(PrintNames(ns)))
  }

  lemma NameExtParses(ns: seq<ServerName>)
    requires NamesFit(ns)
    ensures Sni(NameExt(ns).body) == FirstHostName(ns)
  {
    Take16Vec16(PrintNames(ns), []);
    assert Vec16(PrintNames(ns)) + [] == Vec16(PrintNames(ns));
    NamesParse(ns);
  }

  // ---------- key_share, section 4.2.8 of RFC 8446 ----------

  datatype Share = Share(group: nat, key: seq<byte>)

  function PrintShares(ss: seq<Share>): seq<byte> {
    if ss == [] then [] else PrintExt(Ext(ss[0].group, ss[0].key)) + PrintShares(ss[1..])
  }

  function FirstX25519(ss: seq<Share>): Option<seq<byte>> {
    if ss == [] then None
    else if ss[0].group == GROUP_X25519 && |ss[0].key| == 32 then Some(ss[0].key)
    else FirstX25519(ss[1..])
  }

  predicate SharesFit(ss: seq<Share>) {
    |PrintShares(ss)| < 65536 && forall i :: 0 <= i < |ss| ==> ss[i].group < 65536 && |ss[i].key| < 65536
  }

  lemma {:induction false} SharesParse(ss: seq<Share>)
    requires forall i :: 0 <= i < |ss| ==> ss[i].group < 65536 && |ss[i].key| < 65536
    ensures FirstShare(PrintShares(ss)) == FirstX25519(ss)
  {
    if ss != [] {
      HeadExt(Ext(ss[0].group, ss[0].key), PrintShares(ss[1..]));
      SharesParse(ss[1..]);
    }
  }

  function ShareExt(ss: seq<Share>): Ext {
    Ext(EXT_KEY_SHARE, Vec16(PrintShares(ss)))
  }

  lemma ShareExtParses(ss: seq<Share>)
    requires SharesFit(ss)
    ensures KeyShare(ShareExt(ss).body) == FirstX25519(ss)
  {
    Take16Vec16(PrintShares(ss), []);
    assert Vec16(PrintShares(ss)) + [] == Vec16(PrintShares(ss));
    SharesParse(ss);
  }

  /** ext is a share list, cut anywhere behind its first 32-byte X25519 share k, and more. */
  ghost predicate SharedBy(ext: seq<byte>, ss: seq<Share>, k: seq<byte>, more: seq<byte>, junk: seq<byte>) {
    && |k| == 32 && FirstX25519(ss) == None
    && (forall i :: 0 <= i < |ss| ==> ss[i].group < 65536 && |ss[i].key| < 65536)
    && var list := PrintShares(ss) + (PrintExt(Ext(0x001d, k)) + more);
       |list| < 65536 && ext == Vec16(list) + junk
  }

  lemma {:induction false} SharesSkipped(ss: seq<Share>, rest: seq<byte>)
    requires FirstX25519(ss) == None
    requires forall i :: 0 <= i < |ss| ==> ss[i].group < 65536 && |ss[i].key| < 65536
    ensures FirstShare(PrintShares(ss) + rest) == FirstShare(rest)
  {
    if ss == [] {
      assert PrintShares(ss) + rest == rest;
    } else {
      var (e, tail) := (Ext(ss[0].group, ss[0].key), PrintShares(ss[1..]) + rest);
      assert PrintShares(ss) + rest == PrintExt(e) + tail;
      HeadExt(e, tail);
      SharesSkipped(ss[1..], rest);
    }
  }

  lemma {:induction false} ShareFound(list: seq<byte>, k: seq<byte>) returns (ss: seq<Share>, more: seq<byte>)
    requires FirstShare(list) == Some(k)
    ensures |k| == 32 && FirstX25519(ss) == None
    ensures forall i :: 0 <= i < |ss| ==> ss[i].group < 65536 && |ss[i].key| < 65536
    ensures list == PrintShares(ss) + (PrintExt(Ext(0x001d, k)) + more)
    decreases |list|
  {
    var n := Val16(list[2..]);
    var (group, key, rest) := (Val16(list), list[4..4 + n], list[4 + n..]);
    FirstIsPrinted(list);
    assert list == PrintExt(Ext(group, key)) + rest;
    if group == GROUP_X25519 && n == 32 {
      ss, more := [], rest;
      assert list == PrintShares(ss) + (PrintExt(Ext(0x001d, k)) + more);
    } else {
      var tail;
      tail, more := ShareFound(rest, k);
      ss := [Share(group, key)] + tail;
      assert ss[1..] == tail;
      Regroup(PrintExt(Ext(group, key)), PrintShares(tail), PrintExt(Ext(0x001d, k)) + more);
    }
  }

  lemma Regroup(a: seq<byte>, b: seq<byte>, d: seq<byte>)
    ensures a + (b + d) == (a + b) + d
  {
  }

  /** A key_share extension of any bytes yields k exactly when k is its first such share. */
  lemma KeyShareExactly(ext: seq<byte>, k: seq<byte>)
    ensures KeyShare(ext) == Some(k) <==> exists ss, more, junk :: SharedBy(ext, ss, k, more, junk)
  {
    if KeyShare(ext) == Some(k) {
      var f := Take16(ext).value;
      Take16IsVec16(ext);
      var ss, more := ShareFound(f.field, k);
      assert SharedBy(ext, ss, k, more, f.rest);
    }
    forall ss, more, junk | SharedBy(ext, ss, k, more, junk)
      ensures KeyShare(ext) == Some(k)
    {
      var e := Ext(GROUP_X25519, k);
      Take16Vec16(PrintShares(ss) + (PrintExt(e) + more), junk);
      SharesSkipped(ss, PrintExt(e) + more);
      HeadExt(e, more);
    }
  }

  // ---------- unique extensions in any order ----------

  ghost predicate OnlyAt(es: seq<Ext>, etype: nat, i: nat) {
    i < |es| && forall k :: 0 <= k < |es| ==> (es[k].etype == etype <==> k == i)
  }

  ghost predicate Absent(es: seq<Ext>, etype: nat) {
    forall k :: 0 <= k < |es| ==> es[k].etype != etype
  }

  lemma {:induction false} MeaningAbsent(es: seq<Ext>, found: Found)
    ensures Absent(es, EXT_SERVER_NAME) ==> Meaning(es, found).name == found.name
    ensures Absent(es, EXT_KEY_SHARE) ==> Meaning(es, found).share == found.share
  {
    if es != [] {
      MeaningAbsent(es[1..], Note(found, es[0].etype, es[0].body));
    }
  }

  ghost predicate FirstAt(es: seq<Ext>, etype: nat, i: nat) {
    i < |es| && es[i].etype == etype && forall k :: 0 <= k < i ==> es[k].etype != etype
  }

  ghost predicate LastAt(es: seq<Ext>, etype: nat, j: nat) {
    j < |es| && es[j].etype == etype && forall k :: j < k < |es| ==> es[k].etype != etype
  }

  /** Of several, the last decides. */
  lemma {:induction false} MeaningLast(es: seq<Ext>, found: Found, j: nat)
    requires j < |es|
    ensures LastAt(es, EXT_SERVER_NAME, j) ==> Meaning(es, found).name == Sni(es[j].body)
    ensures LastAt(es, EXT_KEY_SHARE, j) ==> Meaning(es, found).share == KeyShare(es[j].body)
  {
    var next := Note(found, es[0].etype, es[0].body);
    assert forall k :: 0 <= k < |es| - 1 ==> es[1..][k] == es[k + 1];
    if j == 0 {
      MeaningAbsent(es[1..], next);
      assert LastAt(es, EXT_SERVER_NAME, 0) ==> Absent(es[1..], EXT_SERVER_NAME);
      assert LastAt(es, EXT_KEY_SHARE, 0) ==> Absent(es[1..], EXT_KEY_SHARE);
    } else {
      MeaningLast(es[1..], next, j - 1);
      LastLater(es, EXT_SERVER_NAME, j);
      LastLater(es, EXT_KEY_SHARE, j);
    }
  }

  lemma LastLater(es: seq<Ext>, etype: nat, j: nat)
    requires 0 < j < |es|
    ensures LastAt(es, etype, j) ==> LastAt(es[1..], etype, j - 1)
  {
    if LastAt(es, etype, j) {
      forall k | j - 1 < k < |es[1..]|
        ensures es[1..][k].etype != etype
      {
        assert es[1..][k] == es[k + 1];
      }
    }
  }

  /** The only server_name or key_share decides its field wherever it stands. */
  lemma MeaningOnly(es: seq<Ext>, found: Found, i: nat)
    requires i < |es|
    ensures OnlyAt(es, EXT_SERVER_NAME, i) ==> Meaning(es, found).name == Sni(es[i].body)
    ensures OnlyAt(es, EXT_KEY_SHARE, i) ==> Meaning(es, found).share == KeyShare(es[i].body)
  {
    MeaningLast(es, found, i);
  }

  /**
   * Any single-record ClientHello with one server_name and one key_share, printed from names
   * and shares, with any other extensions around them in any order, yields its random, its
   * session id, its first host name and its first 32-byte X25519 share.
   */
  lemma HelloRoundTrip(sh: Shape, ns: seq<ServerName>, i: nat, ss: seq<Share>, j: nat)
    requires Fits(sh) && sh.block.Block? && NamesFit(ns) && SharesFit(ss)
    requires OnlyAt(sh.block.es, EXT_SERVER_NAME, i) && sh.block.es[i] == NameExt(ns)
    requires OnlyAt(sh.block.es, EXT_KEY_SHARE, j) && sh.block.es[j] == ShareExt(ss)
    ensures Parse(Print(sh)) == Ok(Hello(sh.random, sh.sid, FirstHostName(ns), FirstX25519(ss)))
  {
    PrintedParses(sh);
    var found := Found([], None);
    MeaningOnly(sh.block.es, found, i);
    MeaningOnly(sh.block.es, found, j);
    NameExtParses(ns);
    ShareExtParses(ss);
  }

  /** The same without a server_name or without a key_share: the field is reported absent. */
  lemma MissingFieldsAreEmpty(sh: Shape)
    requires Fits(sh)
    ensures Parse(Print(sh)).Ok?
    ensures sh.block.NoBlock? || Absent(sh.block.es, EXT_SERVER_NAME) ==> Parse(Print(sh)).info.serverName == []
    ensures sh.block.NoBlock? || Absent(sh.block.es, EXT_KEY_SHARE) ==> Parse(Print(sh)).info.x25519 == None
  {
    PrintedParses(sh);
    if sh.block.Block? {
      MeaningAbsent(sh.block.es, Found([], None));
    }
  }
}
