/** Bytes, the big-endian integers of the wire formats, and sequence helpers. */
module Bytes {

  type byte = x: int | 0 <= x < 256

  datatype Option<+T> = None | Some(value: T)

  function Min(a: nat, b: nat): nat {
    if a < b then a else b
  }

  /** What `binary.BigEndian.PutUint16(b, uint16(n))` stores: the cast keeps n modulo 65536. */
  function U16(n: nat): (s: seq<byte>)
    ensures |s| == 2
  {
    [n / 256 % 256, n % 256]
  }

  function Val16(s: seq<byte>): (n: nat)
    requires |s| >= 2
    ensures n < 65536
  {
    (s[0] as int) * 256 + (s[1] as int)
  }

  function U24(n: nat): (s: seq<byte>)
    ensures |s| == 3
  {
    [n / 65536 % 256, n / 256 % 256, n % 256]
  }

  function Val24(s: seq<byte>): (n: nat)
    requires |s| >= 3
    ensures n < 0x100_0000
  {
    (s[0] as int) * 65536 + (s[1] as int) * 256 + (s[2] as int)
  }

  lemma Val16OfU16(n: nat)
    ensures Val16(U16(n)) == n % 65536
  {
  }

  lemma U16OfVal16(s: seq<byte>)
    requires |s| >= 2
    ensures U16(Val16(s)) == s[..2]
  {
  }

  lemma Val24OfU24(n: nat)
    requires n < 0x100_0000
    ensures Val24(U24(n)) == n
  {
    var hi, mid := n / 65536, n / 256;
    assert mid / 256 == hi;
    assert mid == hi * 256 + mid % 256;
  }

  lemma U24OfVal24(s: seq<byte>)
    requires |s| >= 3
    ensures U24(Val24(s)) == s[..3]
  {
    var (a, b, c) := (s[0] as int, s[1] as int, s[2] as int);
    var n := Val24(s);
    assert n / 65536 == a && n / 256 == a * 256 + b && n % 256 == c;
  }

  function Flatten<T>(ss: seq<seq<T>>): seq<T> {
    if ss == [] then [] else ss[0] + Flatten(ss[1..])
  }

  lemma FlattenAppend<T>(a: seq<seq<T>>, b: seq<seq<T>>)
    ensures Flatten(a + b) == Flatten(a) + Flatten(b)
  {
    if a == [] {
      assert a + b == b;
    } else {
      FlattenAppend(a[1..], b);
      assert (a + b)[1..] == a[1..] + b;
    }
  }

  lemma FlattenSnoc<T>(a: seq<seq<T>>, x: seq<T>)
    ensures Flatten(a + [x]) == Flatten(a) + x
  {
    FlattenAppend(a, [x]);
    assert [x][1..] == [];
    assert Flatten([x]) == x;
  }

  lemma SliceOfSlice<T>(s: seq<T>, lo: nat, hi: nat, a: nat, b: nat)
    requires lo <= hi <= |s| && a <= b <= hi - lo
    ensures s[lo..hi][a..b] == s[lo + a..lo + b]
  {
    var t := s[lo..hi];
    forall i | 0 <= i < b - a
      ensures t[a..b][i] == s[lo + a..lo + b][i]
    {
      assert t[a..b][i] == t[a + i] == s[lo + (a + i)];
    }
    assert t[a..b] == s[lo + a..lo + b];
  }
}
