/**
 AES-128-CFB as the byte transducer the cipher library provides (src/crypto_stream.c, `crypto_encrypt` and
 `crypto_decrypt`), over any block function of 16 bytes to 16 bytes.
 */
module Cfb {
  import opened Bytes

  const BLOCK := 16

  type BlockFunction = Bytes -> Bytes

  ghost predicate IsBlockFunction(e: BlockFunction) {
    forall b :: |b| == BLOCK ==> |e(b)| == BLOCK
  }

  // ---- Exclusive or ----

  function Pow2(n: nat): nat {
    if n == 0 then 1 else 2 * Pow2(n - 1)
  }

  function XorBits(a: nat, b: nat, n: nat): (r: nat)
    ensures r < Pow2(n)
  {
    if n == 0 then 0 else (if a % 2 == b % 2 then 0 else 1) + 2 * XorBits(a / 2, b / 2, n - 1)
  }

  lemma LowBit(bit: nat, rest: nat)
    requires bit < 2
    ensures (bit + 2 * rest) % 2 == bit && (bit + 2 * rest) / 2 == rest
  {}

  lemma {:induction false} XorTwice(a: nat, b: nat, n: nat)
    requires a < Pow2(n)
    ensures XorBits(XorBits(a, b, n), b, n) == a
  {
    if n == 0 {
    } else {
      XorTwice(a / 2, b / 2, n - 1);
      var bit, rest := if a % 2 == b % 2 then 0 else 1, XorBits(a / 2, b / 2, n - 1);
      LowBit(bit, rest);
      assert XorBits(a, b, n) == bit + 2 * rest;
      assert (if bit == b % 2 then 0 else 1) == a % 2;
    }
  }

  function Xor(a: Byte, b: Byte): Byte {
    assert Pow2(8) == 256;
    XorBits(a, b, 8)
  }

  lemma XorUndone(a: Byte, b: Byte)
    ensures Xor(Xor(a, b), b) == a
  {
    assert Pow2(8) == 256;
    XorTwice(a, b, 8);
  }

  /** Bit `i` of a number. */
  function BitAt(x: nat, i: nat): nat {
    if i == 0 then x % 2 else BitAt(x / 2, i - 1)
  }

  /** In each of its eight bits `x` says whether `a` and `b` differ there. */
  predicate IsExclusiveOr(x: Byte, a: Byte, b: Byte) {
    forall i :: 0 <= i < 8 ==> (BitAt(x, i) == 1 <==> BitAt(a, i) != BitAt(b, i))
  }

  lemma {:induction false} XorBitAt(a: nat, b: nat, n: nat, i: nat)
    requires i < n
    ensures BitAt(XorBits(a, b, n), i) == 1 <==> BitAt(a, i) != BitAt(b, i)
    decreases n
  {
    var bit, rest := if a % 2 == b % 2 then 0 else 1, XorBits(a / 2, b / 2, n - 1);
    LowBit(bit, rest);
    BitIsBit(a, i);
    BitIsBit(b, i);
    if i == 0 {
    } else {
      XorBitAt(a / 2, b / 2, n - 1, i - 1);
    }
  }

  lemma {:induction false} BitIsBit(x: nat, i: nat)
    ensures BitAt(x, i) < 2
    decreases i
  {
    if i == 0 {
    } else {
      BitIsBit(x / 2, i - 1);
    }
  }

  /** The mask is applied by exclusive or, bit by bit. */
  lemma XorIsExclusiveOr(a: Byte, b: Byte)
    ensures IsExclusiveOr(Xor(a, b), a, b)
  {
    forall i | 0 <= i < 8
      ensures BitAt(Xor(a, b), i) == 1 <==> BitAt(a, i) != BitAt(b, i)
    {
      XorBitAt(a, b, 8, i);
    }
  }

  /** And no other byte is the exclusive or of the two. */
  lemma ExclusiveOrUnique(x: Byte, y: Byte, a: Byte, b: Byte)
    requires IsExclusiveOr(x, a, b) && IsExclusiveOr(y, a, b)
    ensures x == y
  {
    forall i | 0 <= i < 8
      ensures BitAt(x, i) == BitAt(y, i)
    {
      BitIsBit(x, i);
      BitIsBit(y, i);
    }
    assert Pow2(8) == 256;
    SameBits(x, y, 8);
  }

  lemma {:induction false} SameBits(x: nat, y: nat, n: nat)
    requires x < Pow2(n) && y < Pow2(n) && forall i :: 0 <= i < n ==> BitAt(x, i) == BitAt(y, i)
    ensures x == y
    decreases n
  {
    if n == 0 {
    } else {
      assert BitAt(x, 0) == BitAt(y, 0);
      forall i | 0 <= i < n - 1
        ensures BitAt(x / 2, i) == BitAt(y / 2, i)
      {
        assert BitAt(x, i + 1) == BitAt(y, i + 1);
      }
      SameBits(x / 2, y / 2, n - 1);
    }
  }

  // ---- The transducer ----

  /** The register holds the feedback block at position 0, key stream still unused behind `pos` otherwise. */
  datatype State = State(reg: Bytes, pos: nat)
  {
    predicate Valid() {
      |reg| == BLOCK && pos < BLOCK
    }
  }

  /** The register with the key stream for the next byte in place. */
  function Loaded(e: BlockFunction, st: State): Bytes {
    if st.pos == 0 then e(st.reg) else st.reg
  }

  function Advance(e: BlockFunction, st: State, c: Byte): State
    requires st.pos < |Loaded(e, st)|
  {
    State(Loaded(e, st)[st.pos := c], if st.pos + 1 == BLOCK then 0 else st.pos + 1)
  }

  ghost predicate Usable(e: BlockFunction, st: State) {
    st.Valid() && IsBlockFunction(e)
  }

  function Encrypt(e: BlockFunction, st: State, pt: Bytes): (r: (State, Bytes))
    requires Usable(e, st)
    ensures r.0.Valid() && |r.1| == |pt|
    decreases pt
  {
    if pt == [] then (st, [])
    else
      var c := Xor(pt[0], Loaded(e, st)[st.pos]);
      var (st', rest) := Encrypt(e, Advance(e, st, c), pt[1..]);
      (st', [c] + rest)
  }

  function Decrypt(e: BlockFunction, st: State, ct: Bytes): (r: (State, Bytes))
    requires Usable(e, st)
    ensures r.0.Valid() && |r.1| == |ct|
    decreases ct
  {
    if ct == [] then (st, [])
    else
      var p := Xor(ct[0], Loaded(e, st)[st.pos]);
      var (st', rest) := Decrypt(e, Advance(e, st, ct[0]), ct[1..]);
      (st', [p] + rest)
  }

  /** Decrypting what was encrypted gives the plaintext back and leaves both ends in the same state. */
  lemma {:induction false} DecryptEncrypted(e: BlockFunction, st: State, pt: Bytes)
    requires Usable(e, st)
    ensures Decrypt(e, st, Encrypt(e, st, pt).1) == (Encrypt(e, st, pt).0, pt)
    decreases pt
  {
    if pt == [] {
    } else {
      var k := Loaded(e, st)[st.pos];
      var c := Xor(pt[0], k);
      XorUndone(pt[0], k);
      DecryptEncrypted(e, Advance(e, st, c), pt[1..]);
      assert Encrypt(e, st, pt).1[1..] == Encrypt(e, Advance(e, st, c), pt[1..]).1;
      assert [pt[0]] + pt[1..] == pt;
    }
  }

  /** And the other way round: the two transducers are inverse to each other. */
  lemma {:induction false} EncryptDecrypted(e: BlockFunction, st: State, ct: Bytes)
    requires Usable(e, st)
    ensures Encrypt(e, st, Decrypt(e, st, ct).1) == (Decrypt(e, st, ct).0, ct)
    decreases ct
  {
    if ct == [] {
    } else {
      var k := Loaded(e, st)[st.pos];
      XorUndone(ct[0], k);
      EncryptDecrypted(e, Advance(e, st, ct[0]), ct[1..]);
      assert Decrypt(e, st, ct).1[1..] == Decrypt(e, Advance(e, st, ct[0]), ct[1..]).1;
      assert [ct[0]] + ct[1..] == ct;
    }
  }

  lemma {:induction false} EncryptInTwo(e: BlockFunction, st: State, a: Bytes, b: Bytes)
    requires Usable(e, st)
    ensures var (s1, c1) := Encrypt(e, st, a);
            var (s2, c2) := Encrypt(e, s1, b);
            Encrypt(e, st, a + b) == (s2, c1 + c2)
    decreases a
  {
    if a == [] {
      assert a + b == b;
      assert [] + Encrypt(e, st, b).1 == Encrypt(e, st, b).1;
    } else {
      assert (a + b)[1..] == a[1..] + b;
      var c := Xor(a[0], Loaded(e, st)[st.pos]);
      EncryptInTwo(e, Advance(e, st, c), a[1..], b);
      var (s1, c1) := Encrypt(e, Advance(e, st, c), a[1..]);
      Assoc([c], c1, Encrypt(e, s1, b).1);
    }
  }

  lemma {:induction false} DecryptInTwo(e: BlockFunction, st: State, a: Bytes, b: Bytes)
    requires Usable(e, st)
    ensures var (s1, p1) := Decrypt(e, st, a);
            var (s2, p2) := Decrypt(e, s1, b);
            Decrypt(e, st, a + b) == (s2, p1 + p2)
    decreases a
  {
    if a == [] {
      assert a + b == b;
      assert [] + Decrypt(e, st, b).1 == Decrypt(e, st, b).1;
    } else {
      assert (a + b)[1..] == a[1..] + b;
      DecryptInTwo(e, Advance(e, st, a[0]), a[1..], b);
      var p := Xor(a[0], Loaded(e, st)[st.pos]);
      var (s1, p1) := Decrypt(e, Advance(e, st, a[0]), a[1..]);
      Assoc([p], p1, Decrypt(e, s1, b).1);
    }
  }

  // ---- The standard's definition ----

  /** The block whose image masks block `j`: the IV, or the previous ciphertext block. */
  function Feedback(iv: Bytes, ct: Bytes, j: nat): Bytes
    requires BLOCK * j <= |ct|
  {
    if j == 0 then iv else ct[BLOCK * (j - 1)..BLOCK * j]
  }

  lemma EncryptOne(e: BlockFunction, st: State, x: Byte)
    requires Usable(e, st)
    ensures var c := Xor(x, Loaded(e, st)[st.pos]); Encrypt(e, st, [x]) == (Advance(e, st, c), [c])
  {
    var c := Xor(x, Loaded(e, st)[st.pos]);
    assert [x][1..] == [] && [c] + [] == [c];
  }

  /** Where the register stands when `ct` has gone out and block `j` is under way. */
  predicate RegisterAt(e: BlockFunction, iv: Bytes, st: State, ct: Bytes, j: nat) {
    && st.Valid() && |ct| == BLOCK * j + st.pos
    && if st.pos == 0 then st.reg == Feedback(iv, ct, j)
       else
         && st.reg[..st.pos] == ct[BLOCK * j..]
         && |e(Feedback(iv, ct, j))| == BLOCK && st.reg[st.pos..] == e(Feedback(iv, ct, j))[st.pos..]
  }

  lemma RegisterStep(e: BlockFunction, iv: Bytes, st: State, ct: Bytes, j: nat, c: Byte)
    requires IsBlockFunction(e) && |iv| == BLOCK && RegisterAt(e, iv, st, ct, j)
    ensures RegisterAt(e, iv, Advance(e, st, c), ct + [c], if st.pos + 1 == BLOCK then j + 1 else j)
  {
    var ct', st' := ct + [c], Advance(e, st, c);
    assert Feedback(iv, ct', j) == Feedback(iv, ct, j);
    var f := e(Feedback(iv, ct, j));
    assert |f| == BLOCK;
    assert st'.reg[..st.pos + 1] == ct'[BLOCK * j..];
    assert st'.reg[st.pos + 1..] == f[st.pos + 1..] by {
      if st.pos > 0 {
        assert st.reg[st.pos..][1..] == f[st.pos..][1..];
        assert st.reg[st.pos + 1..] == st.reg[st.pos..][1..] && f[st.pos + 1..] == f[st.pos..][1..];
      }
    }
    if st.pos + 1 == BLOCK {
      assert st'.reg[..BLOCK] == st'.reg;
    }
  }

  lemma {:induction false} RegisterAfter(e: BlockFunction, iv: Bytes, pt: Bytes) returns (j: nat)
    requires IsBlockFunction(e) && |iv| == BLOCK
    ensures var (st, ct) := Encrypt(e, State(iv, 0), pt); RegisterAt(e, iv, st, ct, j)
    decreases |pt|
  {
    if pt == [] {
      j := 0;
    } else {
      var a, x := pt[..|pt| - 1], pt[|pt| - 1];
      assert pt == a + [x];
      j := RegisterAfter(e, iv, a);
      EncryptInTwo(e, State(iv, 0), a, [x]);
      var (s1, c1) := Encrypt(e, State(iv, 0), a);
      EncryptOne(e, s1, x);
      RegisterStep(e, iv, s1, c1, j, Encrypt(e, s1, [x]).1[0]);
      j := if s1.pos + 1 == BLOCK then j + 1 else j;
    }
  }

  lemma FirstByte(e: BlockFunction, st: State, pt: Bytes)
    requires Usable(e, st) && pt != []
    ensures Encrypt(e, st, pt).1[0] == Xor(pt[0], Loaded(e, st)[st.pos])
  {}

  /** The byte that follows `a`, in block `j` at position `k`. */
  lemma MaskedByte(e: BlockFunction, iv: Bytes, a: Bytes, b: Bytes, j: nat, k: nat) returns (mask: Byte)
    requires IsBlockFunction(e) && |iv| == BLOCK && k < BLOCK && |a| == BLOCK * j + k && b != []
    ensures var ct := Encrypt(e, State(iv, 0), a + b).1;
            ct[|a|] == Xor(b[0], mask) && mask == e(Feedback(iv, ct, j))[k]
  {
    var (s1, c1) := Encrypt(e, State(iv, 0), a);
    var c2 := Encrypt(e, s1, b).1;
    assert Encrypt(e, State(iv, 0), a + b).1 == c1 + c2 by {
      EncryptInTwo(e, State(iv, 0), a, b);
    }
    var j' := RegisterAfter(e, iv, a);
    assert j' == j && s1.pos == k;
    MaskAt(e, iv, s1, c1, j);
    mask := Loaded(e, s1)[k];
    FirstByte(e, s1, b);
    FeedbackKept(iv, c1, c2, j);
  }

  lemma FeedbackKept(iv: Bytes, a: Bytes, b: Bytes, j: nat)
    requires BLOCK * j <= |a|
    ensures Feedback(iv, a + b, j) == Feedback(iv, a, j)
  {}

  /**
   Section 6.3 of NIST SP 800-38A: byte `k` of block `j` is masked with byte `k` of the image of the
   preceding ciphertext block, or of the IV.
   */
  lemma MatchesStandard(e: BlockFunction, iv: Bytes, pt: Bytes, j: nat, k: nat) returns (mask: Byte)
    requires IsBlockFunction(e) && |iv| == BLOCK && k < BLOCK && BLOCK * j + k < |pt|
    ensures var ct := Encrypt(e, State(iv, 0), pt).1;
            IsExclusiveOr(ct[BLOCK * j + k], pt[BLOCK * j + k], mask) && mask == e(Feedback(iv, ct, j))[k]
  {
    var i := BLOCK * j + k;
    var a, b := pt[..i], pt[i..];
    assert a + b == pt && b[0] == pt[i];
    mask := MaskedByte(e, iv, a, b, j, k);
    XorIsExclusiveOr(pt[i], mask);
  }

  lemma MaskAt(e: BlockFunction, iv: Bytes, st: State, ct: Bytes, j: nat)
    requires IsBlockFunction(e) && |iv| == BLOCK && RegisterAt(e, iv, st, ct, j)
    ensures st.pos < |Loaded(e, st)| && Loaded(e, st)[st.pos] == e(Feedback(iv, ct, j))[st.pos]
  {
    if st.pos > 0 {
      assert st.reg[st.pos..][0] == e(Feedback(iv, ct, j))[st.pos..][0];
    }
  }
}
