/**
 The encoder and decoder of an encrypted proxy (src/proxy_tcp.c, `crypto_encode_evbuffer` and
 `proxy_crypto_decode_evbuffer`), compression off: the IV once, then one continuous cipher stream.
 */
module ProxyCrypto {
  import opened Bytes
  import opened Cfb

  type Iv = b: Bytes | |b| == BLOCK witness [0, 0, 0, 0, 0, 0, 0, 0, 0, 0, 0, 0, 0, 0, 0, 0]

  // ---- Encoder ----

  datatype Encoder = Encoder(iv: Iv, st: Cfb.State, ivSent: bool)

  function NewEncoder(iv: Iv): Encoder {
    Encoder(iv, Cfb.State(iv, 0), false)
  }

  /** One call on a source buffer holding `src`, which it empties. */
  function Encode(e: BlockFunction, c: Encoder, src: Bytes): (r: (Encoder, Bytes))
    requires Usable(e, c.st)
    ensures r.0.st.Valid()
  {
    if src == [] then (c, [])
    else
      var (st, ct) := Encrypt(e, c.st, src);
      (c.(st := st, ivSent := true), (if c.ivSent then [] else c.iv) + ct)
  }

  /** The one stream that stands for plaintext `plain`: nothing, or the IV and the ciphertext. */
  function Stream(e: BlockFunction, iv: Iv, plain: Bytes): Bytes
    requires IsBlockFunction(e)
  {
    if plain == [] then [] else iv + Encrypt(e, Cfb.State(iv, 0), plain).1
  }

  /** The encoder has encoded exactly `plain`. */
  ghost predicate HasEncoded(e: BlockFunction, c: Encoder, plain: Bytes) {
    && IsBlockFunction(e)
    && c.st == Encrypt(e, Cfb.State(c.iv, 0), plain).0
    && (c.ivSent <==> plain != [])
  }

  /** Whatever the cuts, the outputs together are the stream of the plaintexts together. */
  lemma EncodeExtends(e: BlockFunction, c: Encoder, plain: Bytes, src: Bytes)
    requires HasEncoded(e, c, plain)
    ensures var (c', out) := Encode(e, c, src);
            && c'.iv == c.iv && HasEncoded(e, c', plain + src)
            && Stream(e, c.iv, plain) + out == Stream(e, c.iv, plain + src)
  {
    var s0 := Cfb.State(c.iv, 0);
    var c1, c2 := Encrypt(e, s0, plain).1, Encrypt(e, c.st, src).1;
    assert Encrypt(e, s0, plain + src) == (Encrypt(e, c.st, src).0, c1 + c2) by {
      EncryptInTwo(e, s0, plain, src);
    }
    if src == [] {
      assert plain + src == plain;
      assert Stream(e, c.iv, plain) + [] == Stream(e, c.iv, plain);
    } else if plain == [] {
      assert plain + src == src && c1 + c2 == c2;
      assert [] + (c.iv + c2) == c.iv + c2;
    } else {
      Assoc(c.iv, c1, c2);
      assert [] + c2 == c2;
    }
  }

  // ---- Decoder ----

  datatype Decoder = Decoder(st: Cfb.State, ivReceived: bool)

  function NewDecoder(): Decoder {
    Decoder(Cfb.State(seq(BLOCK, _ => 0), 0), false)
  }

  /** One call: the decoder, what is left in the source buffer, and what is delivered. */
  function Decode(e: BlockFunction, c: Decoder, src: Bytes): (r: (Decoder, Bytes, Bytes))
    requires Usable(e, c.st)
    ensures r.0.st.Valid()
  {
    if src == [] then (c, src, [])
    else if !c.ivReceived then
      if |src| < BLOCK then (c, src, [])
      else
        var (st, pt) := Decrypt(e, Cfb.State(src[..BLOCK], 0), src[BLOCK..]);
        (Decoder(st, true), [], pt)
    else
      var (st, pt) := Decrypt(e, c.st, src);
      (c.(st := st), [], pt)
  }

  /** Reads that append to one persistent source buffer; the results are joined. */
  function DecodeAll(e: BlockFunction, c: Decoder, src: Bytes, chunks: seq<Bytes>): (r: (Decoder, Bytes, Bytes))
    requires Usable(e, c.st)
    decreases chunks
  {
    if chunks == [] then (c, src, [])
    else
      var (c1, src1, out1) := Decode(e, c, src + chunks[0]);
      var (c2, src2, out2) := DecodeAll(e, c1, src1, chunks[1..]);
      (c2, src2, out1 + out2)
  }

  /** What all bytes received so far amount to. */
  function Decoded(e: BlockFunction, all: Bytes): Bytes
    requires IsBlockFunction(e)
  {
    if |all| < BLOCK then [] else Decrypt(e, Cfb.State(all[..BLOCK], 0), all[BLOCK..]).1
  }

  ghost predicate HasDecoded(e: BlockFunction, c: Decoder, src: Bytes, all: Bytes) {
    && IsBlockFunction(e) && c.st.Valid()
    && (c.ivReceived <==> |all| >= BLOCK)
    && if c.ivReceived then src == [] && c.st == Decrypt(e, Cfb.State(all[..BLOCK], 0), all[BLOCK..]).0
       else src == all
  }

  lemma DecodeExtends(e: BlockFunction, c: Decoder, src: Bytes, all: Bytes, chunk: Bytes)
    requires HasDecoded(e, c, src, all)
    ensures var (c', src', out) := Decode(e, c, src + chunk);
            HasDecoded(e, c', src', all + chunk) && Decoded(e, all) + out == Decoded(e, all + chunk)
  {
    if c.ivReceived {
      var s0 := Cfb.State(all[..BLOCK], 0);
      assert src + chunk == chunk;
      assert (all + chunk)[..BLOCK] == all[..BLOCK] && (all + chunk)[BLOCK..] == all[BLOCK..] + chunk;
      DecryptInTwo(e, s0, all[BLOCK..], chunk);
      if chunk == [] {
        assert all + chunk == all && Decoded(e, all) + [] == Decoded(e, all);
      }
    } else {
      var out := Decode(e, c, src + chunk).2;
      assert [] + out == out;
    }
  }

  lemma {:induction false} DecodeAllIsDecoded(e: BlockFunction, c: Decoder, src: Bytes, all: Bytes, chunks: seq<Bytes>)
    requires HasDecoded(e, c, src, all)
    ensures var (c', src', out) := DecodeAll(e, c, src, chunks);
            HasDecoded(e, c', src', all + Concat(chunks)) && Decoded(e, all) + out == Decoded(e, all + Concat(chunks))
    decreases chunks
  {
    if chunks == [] {
      assert all + [] == all && Decoded(e, all) + [] == Decoded(e, all);
    } else {
      DecodeExtends(e, c, src, all, chunks[0]);
      var (c1, src1, out1) := Decode(e, c, src + chunks[0]);
      DecodeAllIsDecoded(e, c1, src1, all + chunks[0], chunks[1..]);
      Assoc(all, chunks[0], Concat(chunks[1..]));
      Assoc(Decoded(e, all), out1, DecodeAll(e, c1, src1, chunks[1..]).2);
    }
  }

  // ---- Transparency ----

  lemma DecodedStream(e: BlockFunction, iv: Iv, plain: Bytes)
    requires IsBlockFunction(e)
    ensures Decoded(e, Stream(e, iv, plain)) == plain
  {
    var s := Stream(e, iv, plain);
    if plain != [] {
      assert s[..BLOCK] == iv && s[BLOCK..] == Encrypt(e, Cfb.State(iv, 0), plain).1;
      DecryptEncrypted(e, Cfb.State(iv, 0), plain);
    }
  }

  /** The stream of a longer plaintext begins with the IV and the ciphertext of the shorter. */
  lemma StreamPrefix(e: BlockFunction, iv: Iv, a: Bytes, b: Bytes)
    requires IsBlockFunction(e) && a + b != []
    ensures var k := BLOCK + |a|;
            k <= |Stream(e, iv, a + b)| && Stream(e, iv, a + b)[..k] == iv + Encrypt(e, Cfb.State(iv, 0), a).1
  {
    var s0 := Cfb.State(iv, 0);
    EncryptInTwo(e, s0, a, b);
    var c1, c2 := Encrypt(e, s0, a).1, Encrypt(e, Encrypt(e, s0, a).0, b).1;
    Assoc(iv, c1, c2);
    assert (iv + c1 + c2)[..BLOCK + |a|] == iv + c1;
  }

  lemma DecodedFront(e: BlockFunction, iv: Iv, a: Bytes, b: Bytes)
    requires IsBlockFunction(e) && a + b != []
    ensures |Stream(e, iv, a + b)| >= BLOCK + |a| && Decoded(e, Stream(e, iv, a + b)[..BLOCK + |a|]) == a
  {
    StreamPrefix(e, iv, a, b);
    DecodedFrom(e, iv, Encrypt(e, Cfb.State(iv, 0), a).1);
    DecryptEncrypted(e, Cfb.State(iv, 0), a);
  }

  /** A prefix of the stream decodes to a prefix of the plaintext. */
  lemma DecodedPrefix(e: BlockFunction, iv: Iv, plain: Bytes, k: nat)
    requires IsBlockFunction(e) && k <= |Stream(e, iv, plain)|
    ensures Decoded(e, Stream(e, iv, plain)[..k]) == if k < BLOCK then [] else plain[..k - BLOCK]
  {
    if k >= BLOCK {
      var a, b := plain[..k - BLOCK], plain[k - BLOCK..];
      assert a + b == plain;
      DecodedFront(e, iv, a, b);
    }
  }

  lemma DecodedFrom(e: BlockFunction, iv: Iv, ct: Bytes)
    requires IsBlockFunction(e)
    ensures Decoded(e, iv + ct) == Decrypt(e, Cfb.State(iv, 0), ct).1
  {
    assert (iv + ct)[..BLOCK] == iv && (iv + ct)[BLOCK..] == ct;
  }

  /** Bytes that follow the stream without having been encoded are decrypted all the same. */
  lemma DecodedThenRaw(e: BlockFunction, c: Encoder, plain: Bytes, raw: Bytes)
    requires HasEncoded(e, c, plain) && plain != [] && c.st.Valid()
    ensures Decoded(e, Stream(e, c.iv, plain) + raw) == plain + Decrypt(e, c.st, raw).1
  {
    var s0 := Cfb.State(c.iv, 0);
    var ct := Encrypt(e, s0, plain).1;
    Assoc(c.iv, ct, raw);
    DecodedFrom(e, c.iv, ct + raw);
    DecryptEncrypted(e, s0, plain);
    DecryptInTwo(e, s0, ct, raw);
  }

  /** Raw bytes behind the stream stand for themselves if and only if encoding would not change them. */
  lemma RawIsHarmlessIff(e: BlockFunction, c: Encoder, plain: Bytes, raw: Bytes)
    requires HasEncoded(e, c, plain) && c.st.Valid()
    ensures Decoded(e, Stream(e, c.iv, plain) + raw) == plain + raw <==> Encode(e, c, raw).1 == raw
  {
    var s := Stream(e, c.iv, plain);
    if Encode(e, c, raw).1 == raw {
      EncodeExtends(e, c, plain, raw);
      DecodedStream(e, c.iv, plain + raw);
    } else if plain == [] {
      assert s + raw == raw && plain + raw == raw;
      assert |Decoded(e, raw)| < |raw|;
    } else {
      DecodedThenRaw(e, c, plain, raw);
      var p := Decrypt(e, c.st, raw).1;
      if plain + p == plain + raw {
        assert p == (plain + p)[|plain|..] && raw == (plain + raw)[|plain|..];
        EncryptDecrypted(e, c.st, raw);
      }
    }
  }

  /** A stream that stops short of `missing` and goes on with raw bytes falls short of the plaintext. */
  lemma CutStreamFallsShort(e: BlockFunction, c: Encoder, plain: Bytes, framed: Bytes, missing: Bytes, raw: Bytes)
    requires HasEncoded(e, c, plain) && framed + missing == Stream(e, c.iv, plain)
    ensures |Decoded(e, framed + raw)| + |missing| <= |plain| + |raw| ||
            (plain != [] && missing != [] && Decoded(e, framed + raw) == [])
  {
    assert |framed| + |missing| == |Stream(e, c.iv, plain)|;
  }

  /**
   What the peer makes of a stream of which `missing` was never sent and behind which a part of `rest` was
   sent raw.
   */
  lemma CutStreamDecoded(e: BlockFunction, c: Encoder, plain: Bytes, framed: Bytes, missing: Bytes, rest: Bytes, n: nat)
    requires HasEncoded(e, c, plain) && framed + missing == Stream(e, c.iv, plain) && n <= |rest|
    ensures var got := Decoded(e, framed + rest[..n]);
            && (got == plain + rest <==> missing == [] && n == |rest| && Encode(e, c, rest).1 == rest)
            && (n == 0 ==> got <= plain && (got == plain <==> missing == []))
  {
    var s := Stream(e, c.iv, plain);
    if missing == [] && n == |rest| {
      assert framed == s && rest[..n] == rest;
      RawIsHarmlessIff(e, c, plain, rest);
    } else {
      CutStreamFallsShort(e, c, plain, framed, missing, rest[..n]);
    }
    if n == 0 {
      assert framed + rest[..n] == framed && framed == s[..|framed|];
      DecodedPrefix(e, c.iv, plain, |framed|);
      assert |framed| + |missing| == |s|;
    }
  }

  /** Joined outputs of encoding `chunks` one after another. */
  function EncodeAll(e: BlockFunction, c: Encoder, chunks: seq<Bytes>): (r: (Encoder, Bytes))
    requires Usable(e, c.st)
    decreases chunks
  {
    if chunks == [] then (c, [])
    else
      var (c1, out1) := Encode(e, c, chunks[0]);
      var (c2, out2) := EncodeAll(e, c1, chunks[1..]);
      (c2, out1 + out2)
  }

  lemma {:induction false} EncodeAllIsStream(e: BlockFunction, c: Encoder, plain: Bytes, chunks: seq<Bytes>)
    requires HasEncoded(e, c, plain)
    ensures Stream(e, c.iv, plain) + EncodeAll(e, c, chunks).1 == Stream(e, c.iv, plain + Concat(chunks))
    decreases chunks
  {
    if chunks == [] {
      assert plain + [] == plain && Stream(e, c.iv, plain) + [] == Stream(e, c.iv, plain);
    } else {
      EncodeExtends(e, c, plain, chunks[0]);
      var (c1, out1) := Encode(e, c, chunks[0]);
      EncodeAllIsStream(e, c1, plain + chunks[0], chunks[1..]);
      Assoc(plain, chunks[0], Concat(chunks[1..]));
      Assoc(Stream(e, c.iv, plain), out1, EncodeAll(e, c1, chunks[1..]).1);
    }
  }

  /**
   Transparency: plaintext encoded in any chunks and decoded in any other chunks from a persistent source
   buffer comes back unchanged, and the IV is consumed exactly once.
   */
  lemma Transparent(e: BlockFunction, iv: Iv, plains: seq<Bytes>, chunks: seq<Bytes>)
    requires IsBlockFunction(e) && Concat(chunks) == EncodeAll(e, NewEncoder(iv), plains).1
    ensures var (c, src, out) := DecodeAll(e, NewDecoder(), [], chunks);
            out == Concat(plains) && src == [] && (c.ivReceived <==> Concat(plains) != [])
  {
    EncodeAllIsStream(e, NewEncoder(iv), [], plains);
    assert [] + Concat(plains) == Concat(plains) && [] + Concat(chunks) == Concat(chunks);
    DecodeAllIsDecoded(e, NewDecoder(), [], [], chunks);
    DecodedStream(e, iv, Concat(plains));
    var out := DecodeAll(e, NewDecoder(), [], chunks).2;
    assert [] + out == out;
    assert [] + EncodeAll(e, NewEncoder(iv), plains).1 == Stream(e, iv, Concat(plains));
  }

  /**
   What goes out, by the standard: the IV, and then each byte of the plaintext masked by exclusive or with the
   image of the ciphertext block before it, or of the IV (section 6.3 of NIST SP 800-38A).
   */
  lemma EncodedAsStandard(e: BlockFunction, iv: Iv, plains: seq<Bytes>, j: nat, k: nat)
    requires IsBlockFunction(e) && k < BLOCK && BLOCK * j + k < |Concat(plains)|
    ensures var out, plain, i := EncodeAll(e, NewEncoder(iv), plains).1, Concat(plains), BLOCK * j + k;
            && |out| == BLOCK + |plain| && out[..BLOCK] == iv
            && var before := if j == 0 then iv else out[BLOCK * j..BLOCK * (j + 1)];
               IsExclusiveOr(out[BLOCK + i], plain[i], e(before)[k])
  {
    EncodedIsStream(e, iv, plains);
    var ct := Encrypt(e, Cfb.State(iv, 0), Concat(plains)).1;
    var mask := MatchesStandard(e, iv, Concat(plains), j, k);
    FeedbackInStream(iv, ct, j, k);
  }

  lemma EncodedIsStream(e: BlockFunction, iv: Iv, plains: seq<Bytes>)
    requires IsBlockFunction(e) && Concat(plains) != []
    ensures EncodeAll(e, NewEncoder(iv), plains).1 == iv + Encrypt(e, Cfb.State(iv, 0), Concat(plains)).1
  {
    var plain, out := Concat(plains), EncodeAll(e, NewEncoder(iv), plains).1;
    EncodeAllIsStream(e, NewEncoder(iv), [], plains);
    assert [] + plain == plain && [] + out == out;
  }

  lemma FeedbackInStream(iv: Iv, ct: Bytes, j: nat, k: nat)
    requires k < BLOCK && BLOCK * j + k < |ct|
    ensures var out := iv + ct;
            && |out| == BLOCK + |ct| && out[..BLOCK] == iv && out[BLOCK + (BLOCK * j + k)] == ct[BLOCK * j + k]
            && (if j == 0 then iv else out[BLOCK * j..BLOCK * (j + 1)]) == Feedback(iv, ct, j)
  {
    var out := iv + ct;
    if j > 0 {
      assert out[BLOCK * j..BLOCK * (j + 1)] == ct[BLOCK * (j - 1)..BLOCK * j];
    }
  }

  // ---- Multiplexed mode: a source buffer per frame ----

  /** Each frame is decoded from a buffer of its own, and what the decoder leaves there is freed with it. */
  function DecodeFrames(e: BlockFunction, c: Decoder, frames: seq<Bytes>): (r: (Decoder, Bytes))
    requires Usable(e, c.st)
    decreases frames
  {
    if frames == [] then (c, [])
    else
      var (c1, _, out1) := Decode(e, c, frames[0]);
      var (c2, out2) := DecodeFrames(e, c1, frames[1..]);
      (c2, out1 + out2)
  }

  predicate NonEmpty(frames: seq<Bytes>) {
    forall i :: 0 <= i < |frames| ==> frames[i] != []
  }

  /** With a whole IV in hand the two modes agree. */
  lemma {:induction false} FramesAgree(e: BlockFunction, c: Decoder, frames: seq<Bytes>)
    requires Usable(e, c.st)
    requires c.ivReceived || (frames != [] && |frames[0]| >= BLOCK)
    ensures DecodeFrames(e, c, frames) == (DecodeAll(e, c, [], frames).0, DecodeAll(e, c, [], frames).2)
    decreases frames
  {
    if frames == [] {
    } else {
      assert [] + frames[0] == frames[0];
      FramesAgree(e, Decode(e, c, frames[0]).0, frames[1..]);
    }
  }

  lemma {:induction false} FramesDeliver(e: BlockFunction, c: Decoder, frames: seq<Bytes>)
    requires Usable(e, c.st)
    ensures |DecodeFrames(e, c, frames).1| <= |Concat(frames)|
    ensures c.ivReceived ==> |DecodeFrames(e, c, frames).1| == |Concat(frames)|
    ensures !c.ivReceived && DecodeFrames(e, c, frames).1 != [] ==>
              |DecodeFrames(e, c, frames).1| + BLOCK <= |Concat(frames)|
    decreases frames
  {
    if frames == [] {
    } else {
      FramesDeliver(e, Decode(e, c, frames[0]).0, frames[1..]);
    }
  }

  /**
   In multiplexed mode a stream longer than its IV is delivered whole if and only if the first frame holds
   at least the 16 bytes of the IV; a shorter first frame is thrown away and the stream is never recovered.
   */
  lemma FirstFrameHoldsIv(e: BlockFunction, frames: seq<Bytes>)
    requires IsBlockFunction(e) && frames != [] && NonEmpty(frames) && |Concat(frames)| > BLOCK
    ensures DecodeFrames(e, NewDecoder(), frames).1 == Decoded(e, Concat(frames)) <==> |frames[0]| >= BLOCK
  {
    var c := NewDecoder();
    if |frames[0]| >= BLOCK {
      FramesAgree(e, c, frames);
      DecodeAllIsDecoded(e, c, [], [], frames);
      var out := DecodeAll(e, c, [], frames).2;
      assert [] + out == out && [] + Concat(frames) == Concat(frames);
    } else {
      FramesDeliver(e, c, frames[1..]);
      assert Decode(e, c, frames[0]).2 == [];
      var out := DecodeFrames(e, c, frames[1..]).1;
      assert [] + out == out;
      assert |Decoded(e, Concat(frames))| == |Concat(frames)| - BLOCK;
    }
  }

  // ---- The stateful contexts ----

  class CryptoWriter {
    const iv: Iv
    var st: Cfb.State
    var ivSent: bool

    ghost function View(): Encoder
      reads this
    {
      Encoder(iv, st, ivSent)
    }

    constructor (iv: Iv)
      ensures View() == NewEncoder(iv)
    {
      this.iv, st, ivSent := iv, Cfb.State(iv, 0), false;
    }

    /** `crypto_encode_evbuffer`, appending to `dst`. */
    method EncodeInto(e: BlockFunction, src: Bytes, dst: Bytes) returns (out: Bytes)
      requires Usable(e, st)
      modifies this
      ensures st.Valid() && out == dst + Encode(e, old(View()), src).1 && View() == Encode(e, old(View()), src).0
    {
      out := dst;
      if |src| == 0 {
        return out + [];
      }
      if !ivSent {
        out := out + iv;
        ivSent := true;
      }
      var (st', ct) := Encrypt(e, st, src);
      st := st';
      assert dst + iv + ct == dst + (iv + ct) && dst + ct == dst + ([] + ct);
      out := out + ct;
    }
  }

  class CryptoReader {
    var st: Cfb.State
    var ivReceived: bool

    ghost function View(): Decoder
      reads this
    {
      Decoder(st, ivReceived)
    }

    constructor ()
      ensures View() == NewDecoder()
    {
      st, ivReceived := Cfb.State(seq(BLOCK, _ => 0), 0), false;
    }

    /** `proxy_crypto_decode_evbuffer`: what stays in the source, and what goes to the destination. */
    method DecodeFrom(e: BlockFunction, src: Bytes) returns (left: Bytes, out: Bytes)
      requires Usable(e, st)
      modifies this
      ensures st.Valid() && (View(), left, out) == Decode(e, old(View()), src)
    {
      left, out := src, [];
      if |src| == 0 {
        return;
      }
      if !ivReceived {
        if |src| < BLOCK {
          return;
        }
        st, ivReceived := Cfb.State(src[..BLOCK], 0), true;
        left := src[BLOCK..];
        if |left| == 0 {
          return;
        }
      }
      var (st', pt) := Decrypt(e, st, left);
      st, left, out := st', [], pt;
    }
  }
}
