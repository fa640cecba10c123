/** The 96-bit frame counter of the AEAD stream (src/aead_stream.c, `increment_nonce`). */
module Nonce {
  import opened Bytes

  /** What one call leaves in the buffer, and whether it reports success. */
  function Incr(s: Bytes): (r: (Bytes, bool))
    ensures |r.0| == |s|
  {
    if s == [] then ([], false)
    else
      var n := |s| - 1;
      if s[n] != 255 then (s[..n] + [s[n] + 1], true)
      else
        var (hi, ok) := Incr(s[..n]);
        (hi + [0], ok)
  }

  lemma {:induction false} IncrCarries(s: Bytes)
    ensures Incr(s).1 ==> BigEndian(Incr(s).0) == BigEndian(s) + 1
    ensures !Incr(s).1 ==> BigEndian(Incr(s).0) == 0 && BigEndian(s) + 1 == Pow256(|s|)
  {
    if s == [] {
    } else {
      var n, r := |s| - 1, Incr(s).0;
      if s[n] != 255 {
        assert r[..n] == s[..n];
      } else {
        IncrCarries(s[..n]);
        assert r[..n] == Incr(s[..n]).0;
      }
    }
  }

  lemma PlusOneModulo(v: nat, w: nat, m: nat, ok: bool)
    requires ok ==> w == v + 1 < m
    requires !ok ==> w == 0 && v + 1 == m
    ensures w == (v + 1) % m
  {}

  /** The counter is the big-endian number plus one modulo 256^n, and the call fails exactly on wrap. */
  lemma {:induction false} IncrIsPlusOne(s: Bytes)
    ensures BigEndian(Incr(s).0) == (BigEndian(s) + 1) % Pow256(|s|)
    ensures Incr(s).1 <==> BigEndian(s) + 1 < Pow256(|s|)
  {
    var v, w, m, ok := BigEndian(s), BigEndian(Incr(s).0), Pow256(|s|), Incr(s).1;
    assert (ok ==> w == v + 1 < m) && (!ok ==> w == 0 && v + 1 == m) by {
      IncrCarries(s);
      BigEndianBound(Incr(s).0);
    }
    PlusOneModulo(v, w, m, ok);
  }

  function Zeros(n: nat): Bytes {
    seq(n, _ => 0)
  }

  /** `increment_nonce`: add one to the last byte and carry while it wraps. */
  method IncrementNonce(nonce: array<Byte>) returns (ok: bool)
    modifies nonce
    ensures nonce[..] == Incr(old(nonce[..])).0 && ok == Incr(old(nonce[..])).1
  {
    ghost var was := nonce[..];
    var i := nonce.Length - 1;
    assert was[..i + 1] == was;
    while i >= 0
      invariant -1 <= i < nonce.Length
      invariant nonce[..] == was[..i + 1] + Zeros(nonce.Length - 1 - i)
      invariant Incr(was).0 == Incr(was[..i + 1]).0 + Zeros(nonce.Length - 1 - i)
      invariant Incr(was).1 == Incr(was[..i + 1]).1
    {
      ghost var head := was[..i + 1];
      assert head[..i] == was[..i] && head[i] == was[i];
      assert nonce[i] == nonce[..][i] == was[i];
      nonce[i] := if nonce[i] == 255 then 0 else nonce[i] + 1;
      assert nonce[..] == was[..i] + [nonce[i]] + Zeros(nonce.Length - 1 - i);
      if nonce[i] != 0 {
        assert Incr(head).0 == was[..i] + [nonce[i]];
        return true;
      }
      assert [0] + Zeros(nonce.Length - 1 - i) == Zeros(nonce.Length - i);
      i := i - 1;
    }
    return false;
  }
}
