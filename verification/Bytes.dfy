/**
 Bytes, big-endian fields and chunked byte streams: the one view of data that every
 layer of the client shares.
 */
module Bytes {
  type Byte = b: int | 0 <= b < 256
  type Bytes = seq<Byte>

  datatype Option<+T> = None | Some(value: T)

  function Min(a: int, b: int): int {
    if a < b then a else b
  }

  lemma Assoc<T>(a: seq<T>, b: seq<T>, c: seq<T>)
    ensures a + b + c == a + (b + c)
  {}

  /** A received stream is cut into reads; `Concat` forgets the cuts. */
  function Concat(chunks: seq<Bytes>): Bytes {
    if chunks == [] then [] else chunks[0] + Concat(chunks[1..])
  }

  // ---- Big-endian numbers of any width ----

  function Pow256(n: nat): (p: nat)
    ensures p > 0
  {
    if n == 0 then 1 else 256 * Pow256(n - 1)
  }

  function BigEndian(s: Bytes): nat {
    if s == [] then 0 else BigEndian(s[..|s| - 1]) * 256 + s[|s| - 1]
  }

  lemma {:induction false} BigEndianBound(s: Bytes)
    ensures BigEndian(s) < Pow256(|s|)
  {
    if s == [] {
    } else {
      BigEndianBound(s[..|s| - 1]);
    }
  }

  /** At a fixed width the number determines the bytes. */
  lemma {:induction false} BigEndianInjective(a: Bytes, b: Bytes)
    requires |a| == |b| && BigEndian(a) == BigEndian(b)
    ensures a == b
  {
    if a == [] {
    } else {
      var n := |a| - 1;
      BigEndianInjective(a[..n], b[..n]);
      assert a == a[..n] + [a[n]] && b == b[..n] + [b[n]];
    }
  }

  /** The n low-order bytes of a number, most significant first. */
  function ToBigEndian(v: nat, n: nat): (s: Bytes)
    ensures |s| == n
  {
    if n == 0 then [] else ToBigEndian(v / 256, n - 1) + [v % 256]
  }

  lemma {:induction false} ToBigEndianRoundTrip(v: nat, n: nat)
    requires v < Pow256(n)
    ensures BigEndian(ToBigEndian(v, n)) == v
  {
    if n == 0 {
    } else {
      ToBigEndianRoundTrip(v / 256, n - 1);
      assert ToBigEndian(v, n)[..n - 1] == ToBigEndian(v / 256, n - 1);
    }
  }

  lemma {:induction false} ToBigEndianSplit(hi: nat, lo: nat, n: nat, k: nat)
    requires lo < Pow256(k)
    ensures ToBigEndian(hi * Pow256(k) + lo, n + k) == ToBigEndian(hi, n) + ToBigEndian(lo, k)
  {
    if k == 0 {
    } else {
      CarryOut(hi, lo, k);
      ToBigEndianSplit(hi, lo / 256, n, k - 1);
    }
  }

  lemma CarryOut(hi: nat, lo: nat, k: nat)
    requires k > 0 && lo < Pow256(k)
    ensures lo / 256 < Pow256(k - 1)
    ensures (hi * Pow256(k) + lo) % 256 == lo % 256
    ensures (hi * Pow256(k) + lo) / 256 == hi * Pow256(k - 1) + lo / 256
  {
    var a := hi * Pow256(k - 1);
    assert hi * Pow256(k) == 256 * a;
  }

  // ---- Fixed-width fields ----

  function U16(v: nat): Bytes {
    ToBigEndian(v, 2)
  }

  function U32(v: nat): Bytes {
    ToBigEndian(v, 4)
  }

  function Get16(s: Bytes): nat
    requires |s| == 2
  {
    (s[0] as int) * 0x100 + s[1] as int
  }

  function Get32(s: Bytes): nat
    requires |s| == 4
  {
    (s[0] as int) * 0x100_0000 + (s[1] as int) * 0x1_0000 + (s[2] as int) * 0x100 + s[3] as int
  }

  lemma Get16IsBigEndian(s: Bytes)
    requires |s| == 2
    ensures Get16(s) == BigEndian(s)
  {
    var t := s[..1];
    assert t[..0] == [];
    assert BigEndian(t) == t[0] as int;
  }

  lemma Get32IsBigEndian(s: Bytes)
    requires |s| == 4
    ensures Get32(s) == BigEndian(s)
  {
    var s3, s2 := s[..3], s[..2];
    Get16IsBigEndian(s2);
    assert s3[..2] == s2;
    assert BigEndian(s3) == BigEndian(s2) * 0x100 + s[2] as int;
  }

  lemma U16RoundTrip(v: nat)
    requires v < 0x1_0000
    ensures Get16(U16(v)) == v
  {
    assert Pow256(2) == 0x1_0000;
    ToBigEndianRoundTrip(v, 2);
    Get16IsBigEndian(U16(v));
  }

  lemma U32RoundTrip(v: nat)
    requires v < 0x1_0000_0000
    ensures Get32(U32(v)) == v
  {
    assert Pow256(4) == 0x1_0000_0000;
    ToBigEndianRoundTrip(v, 4);
    Get32IsBigEndian(U32(v));
  }
}
