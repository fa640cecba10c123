/**
 The framed AEAD stream of wire protocol v2 (src/aead_stream.c).

 The writer emits its 12-byte nonce once and then frames `length(4) ++ seal(...)`; the reader
 buffers whatever the socket delivers and opens every frame that is complete.  AES-256-GCM is a
 parameter: a pair of functions of which only `open(seal(x)) == x` and the tag length are used.
 */
module Aead {
  import opened Bytes
  import opened Nonce

  const NONCE_SIZE := 12
  const TAG_SIZE := 16
  const MAX_PAYLOAD := 65536
  const TWO_64 := 0x1_0000_0000_0000_0000

  /** The 64-bit frame counter of either side. */
  function Tick(frames: nat): nat {
    if frames + 1 == TWO_64 then 0 else frames + 1
  }

  /** Arguments are key, nonce, additional data and text, as in `gcm_seal` and `gcm_open`. */
  datatype Gcm = Gcm(seal: (Bytes, Bytes, Bytes, Bytes) -> Bytes,
                     open: (Bytes, Bytes, Bytes, Bytes) -> Option<Bytes>)
  {
    ghost predicate Lawful() {
      forall k, n, a, p :: |seal(k, n, a, p)| == |p| + TAG_SIZE && open(k, n, a, seal(k, n, a, p)) == Some(p)
    }
  }

  type NonceBytes = n: Bytes | |n| == NONCE_SIZE witness [0, 0, 0, 0, 0, 0, 0, 0, 0, 0, 0, 0]

  // ---- Writer ----

  datatype Writer = Writer(key: Bytes, streamNonce: NonceBytes, nonce: NonceBytes, headerSent: bool, frames: nat)
  {
    /** What `aead_writer_init` establishes and every call keeps. */
    predicate Valid() {
      frames < TWO_64 && (!headerSent ==> nonce == streamNonce && frames == 0)
    }
  }

  /** One call of `aead_writer_seal`; `engineOk` says whether the cipher library succeeded. */
  datatype SealCall = SealCall(pt: Bytes, engineOk: bool)
  {
    predicate UsesNonce() {
      0 < |pt| <= MAX_PAYLOAD && engineOk
    }
  }

  function FrameBytes(g: Gcm, key: Bytes, streamNonce: Bytes, nonce: Bytes, pt: Bytes): Bytes {
    var header := U32(|pt| + TAG_SIZE);
    header + g.seal(key, nonce, streamNonce + header, pt)
  }

  /** The stream header that the first frame carries. */
  function HeaderBytes(w: Writer): Bytes {
    if w.headerSent then [] else w.nonce
  }

  function Seal(g: Gcm, w: Writer, call: SealCall): (r: (Writer, Option<Bytes>)) {
    if !call.UsesNonce() then (w, None)
    else
      var frame := HeaderBytes(w) + FrameBytes(g, w.key, w.streamNonce, w.nonce, call.pt);
      var (next, ok) := Incr(w.nonce);
      var w' := w.(headerSent := true, nonce := next);
      if !ok then (w', None) else (w'.(frames := Tick(w.frames)), Some(frame))
  }

  /** Everything a run of calls puts on the wire, and the plaintext it accounts for. */
  datatype SealRun = SealRun(writer: Writer, wire: Bytes, plain: Bytes)

  function SealAll(g: Gcm, w: Writer, calls: seq<SealCall>): SealRun
    decreases calls
  {
    if calls == [] then SealRun(w, [], [])
    else
      var (w', out) := Seal(g, w, calls[0]);
      var rest := SealAll(g, w', calls[1..]);
      if out.None? then rest
      else SealRun(rest.writer, out.value + rest.wire, calls[0].pt + rest.plain)
  }

  // ---- Reader ----

  datatype Reader = Reader(key: Bytes, streamNonce: NonceBytes, nonce: NonceBytes, headerRead: bool,
                           frames: nat, ct: Bytes, pt: Bytes)

  /** `Fed` is the C return value 0; the other three are its -1, told apart by their branch. */
  datatype Status = Fed | BadLength | OpenFailed | Wrapped

  datatype Outcome = Outcome(reader: Reader, status: Status)

  predicate BadFrameLength(clen: nat) {
    clen < TAG_SIZE || clen > MAX_PAYLOAD + TAG_SIZE
  }

  /** One turn of the reader's loop: stop, carry on, or halt because the counter ran over. */
  datatype Step = Stop(status: Status) | Next(reader: Reader) | Halt(reader: Reader)

  function OneStep(g: Gcm, r: Reader): (s: Step)
    ensures s.Next? ==> |s.reader.ct| + 12 <= |r.ct|
    ensures s.Next? && r.headerRead ==> |s.reader.ct| + 20 <= |r.ct|
    ensures s.Halt? ==> |s.reader.ct| + 20 <= |r.ct|
  {
    if !r.headerRead then
      if |r.ct| < NONCE_SIZE then Stop(Fed) else Next(TakeHeader(r))
    else if |r.ct| < 4 then Stop(Fed)
    else
      var clen := Get32(r.ct[..4]);
      if BadFrameLength(clen) then Stop(BadLength)
      else if |r.ct| < 4 + clen then Stop(Fed)
      else
        var text := g.open(r.key, r.nonce, r.streamNonce + r.ct[..4], r.ct[4..4 + clen]);
        if text.None? then Stop(OpenFailed)
        else if !Incr(r.nonce).1 then Halt(Accept(r, clen, text.value))
        else Next(Count(Accept(r, clen, text.value)))
  }

  /** The reader's loop over the buffered ciphertext. */
  function Drain(g: Gcm, r: Reader): (o: Outcome)
    ensures |o.reader.ct| <= |r.ct|
    decreases |r.ct|
  {
    match OneStep(g, r)
    case Stop(status) => Outcome(r, status)
    case Halt(r') => Outcome(r', Wrapped)
    case Next(r') => Drain(g, r')
  }

  function Accept(r: Reader, clen: nat, text: Bytes): Reader
    requires 4 + clen <= |r.ct|
  {
    r.(ct := r.ct[4 + clen..], pt := r.pt + text, nonce := Incr(r.nonce).0)
  }

  function Count(r: Reader): Reader {
    r.(frames := Tick(r.frames))
  }

  function TakeHeader(r: Reader): Reader
    requires |r.ct| >= NONCE_SIZE
  {
    var n := r.ct[..NONCE_SIZE];
    r.(nonce := n, streamNonce := n, ct := r.ct[NONCE_SIZE..], headerRead := true)
  }

  function Buffer(r: Reader, b: Bytes): Reader {
    r.(ct := r.ct + b)
  }

  /** One call of `aead_reader_feed`. */
  function Feed(g: Gcm, r: Reader, b: Bytes): Outcome {
    Drain(g, Buffer(r, b))
  }

  function FeedAll(g: Gcm, r: Reader, chunks: seq<Bytes>): Outcome
    decreases chunks
  {
    if chunks == [] then Outcome(r, Fed)
    else
      var o := Feed(g, r, chunks[0]);
      if |chunks| == 1 then o else FeedAll(g, o.reader, chunks[1..])
  }

  // ---- Feeding is insensitive to the cuts, except across a counter wrap ----

  /** A turn that did something does the same when more bytes follow; a failing turn fails again. */
  lemma StepThenMore(g: Gcm, r: Reader, b: Bytes)
    ensures var s, s' := OneStep(g, r), OneStep(g, Buffer(r, b));
            && (s.Next? ==> s' == Next(Buffer(s.reader, b)))
            && (s.Halt? ==> s' == Halt(Buffer(s.reader, b)))
            && (s.Stop? && s.status != Fed ==> s' == s)
  {
    var ct := r.ct + b;
    if !r.headerRead {
      if |r.ct| >= NONCE_SIZE {
        assert ct[..NONCE_SIZE] == r.ct[..NONCE_SIZE] && ct[NONCE_SIZE..] == r.ct[NONCE_SIZE..] + b;
      }
    } else if |r.ct| >= 4 {
      assert ct[..4] == r.ct[..4];
      var clen := Get32(r.ct[..4]);
      if !BadFrameLength(clen) && |r.ct| >= 4 + clen {
        assert ct[4..4 + clen] == r.ct[4..4 + clen] && ct[4 + clen..] == r.ct[4 + clen..] + b;
      }
    }
  }

  /** Bytes that arrive later do not change what was already drained. */
  lemma {:induction false} DrainThenMore(g: Gcm, r: Reader, b: Bytes)
    ensures var o := Drain(g, r);
            Drain(g, Buffer(r, b)) ==
            if o.status == Wrapped then Outcome(Buffer(o.reader, b), Wrapped) else Drain(g, Buffer(o.reader, b))
    decreases |r.ct|
  {
    StepThenMore(g, r, b);
    if OneStep(g, r).Next? {
      DrainThenMore(g, OneStep(g, r).reader, b);
    }
  }

  /**
   Feeding `a` and then `b` is feeding `a ++ b` -- same plaintext, residue, counter and result --
   if and only if the first call did not run the counter over.  After a wrap the second call carries
   on with counter zero, while the single call would have stopped.
   */
  lemma FeedIsHomomorphic(g: Gcm, r: Reader, a: Bytes, b: Bytes)
    ensures Feed(g, Feed(g, r, a).reader, b) == Feed(g, r, a + b) <==> Feed(g, r, a).status != Wrapped
  {
    var o := Feed(g, r, a);
    assert Buffer(r, a + b) == Buffer(Buffer(r, a), b);
    DrainThenMore(g, Buffer(r, a), b);
    WrapMoves(g, Buffer(o.reader, b));
  }

  lemma {:induction false} WrapMoves(g: Gcm, r: Reader)
    ensures Drain(g, r).status == Wrapped ==> |Drain(g, r).reader.ct| < |r.ct|
    decreases |r.ct|
  {
    if OneStep(g, r).Next? {
      WrapMoves(g, OneStep(g, r).reader);
    }
  }

  /** What is already decrypted does not influence the rest. */
  lemma {:induction false} DrainKeepsPlain(g: Gcm, r: Reader, p: Bytes)
    ensures var o := Drain(g, r);
            Drain(g, r.(pt := p + r.pt)) == Outcome(o.reader.(pt := p + o.reader.pt), o.status)
    decreases |r.ct|
  {
    var s := OneStep(g, r);
    if !s.Stop? {
      var gain := s.reader.pt[|r.pt|..];
      assert s.reader.pt == r.pt + gain && p + r.pt + gain == p + (r.pt + gain);
      assert p + r.pt + [] == p + r.pt;
      if s.Next? {
        assert OneStep(g, r.(pt := p + r.pt)) == Next(s.reader.(pt := p + s.reader.pt));
        DrainKeepsPlain(g, s.reader, p);
      }
    }
  }

  /** A reader emptied of its plaintext after a successful feed carries on as one that was not. */
  lemma FeedAfterFed(g: Gcm, r: Reader, a: Bytes, b: Bytes)
    requires Feed(g, r, a).status == Fed
    ensures var o := Feed(g, r, a);
            var o2 := Feed(g, o.reader.(pt := []), b);
            Feed(g, r, a + b) == Outcome(o2.reader.(pt := o.reader.pt + o2.reader.pt), o2.status)
  {
    var o := Feed(g, r, a);
    Assoc(r.ct, a, b);
    DrainThenMore(g, Buffer(r, a), b);
    DrainKeepsPlain(g, Buffer(o.reader.(pt := []), b), o.reader.pt);
    assert o.reader.pt + [] == o.reader.pt;
  }

  /** A reader emptied of its plaintext between two successful feeds yields the same plaintext in two parts. */
  lemma FeedInTwo(g: Gcm, r: Reader, a: Bytes, b: Bytes)
    requires r.pt == [] && Feed(g, r, a + b).status == Fed
    ensures var o := Feed(g, r, a);
            var o2 := Feed(g, o.reader.(pt := []), b);
            && o.status == Fed && o2.status == Fed
            && Feed(g, r, a + b).reader == o2.reader.(pt := o.reader.pt + o2.reader.pt)
  {
    FailsAlready(g, r, a, b);
    FeedAfterFed(g, r, a, b);
  }

  /** More bytes do not repair a failed feed. */
  lemma FailsAlready(g: Gcm, r: Reader, a: Bytes, b: Bytes)
    ensures Feed(g, r, a).status != Fed ==> Feed(g, r, a + b).status == Feed(g, r, a).status
  {
    var o := Feed(g, r, a);
    Assoc(r.ct, a, b);
    DrainThenMore(g, Buffer(r, a), b);
    if o.status in {BadLength, OpenFailed} {
      DrainFailsStuck(g, Buffer(r, a));
      StepThenMore(g, o.reader, b);
    }
  }

  /** The counter a reader starts from on the bytes it holds: its own, or the one in the stream header. */
  function FirstNonce(r: Reader): NonceBytes {
    if r.headerRead || |r.ct| < NONCE_SIZE then r.nonce else r.ct[..NONCE_SIZE]
  }

  /** Buffered bytes that are too few for a wrap: one 20-byte frame for every counter value left. */
  predicate TooShortToWrap(r: Reader) {
    |r.ct| < (if r.headerRead then 0 else NONCE_SIZE) + 20 * (Pow256(NONCE_SIZE) - BigEndian(FirstNonce(r)))
  }

  /** A caller can rule the wrap out beforehand, also for a reader that has not seen its stream header. */
  lemma {:induction false} WrapNeedsFrames(g: Gcm, r: Reader)
    requires Drain(g, r).status == Wrapped
    ensures !TooShortToWrap(r)
    decreases |r.ct|
  {
    BigEndianBound(FirstNonce(r));
    var s := OneStep(g, r);
    if s.Next? {
      WrapNeedsFrames(g, s.reader);
    }
    if r.headerRead {
      IncrCarries(r.nonce);
    }
  }

  /** A reader whose buffered frame is the one that fails. */
  predicate StuckWith(g: Gcm, r: Reader, status: Status) {
    status in {BadLength, OpenFailed} && OneStep(g, r) == Stop(status)
  }

  lemma {:induction false} DrainFailsStuck(g: Gcm, r: Reader)
    requires Drain(g, r).status in {BadLength, OpenFailed}
    ensures StuckWith(g, Drain(g, r).reader, Drain(g, r).status)
    decreases |r.ct|
  {
    if OneStep(g, r).Next? {
      DrainFailsStuck(g, OneStep(g, r).reader);
    }
  }

  /** After a bad length or a failed open, no later feed ever adds plaintext or moves the counter. */
  lemma {:induction false} FailureIsSticky(g: Gcm, r: Reader, a: Bytes, later: seq<Bytes>)
    requires Feed(g, r, a).status in {BadLength, OpenFailed} && later != []
    ensures var o := Feed(g, r, a);
            FeedAll(g, o.reader, later) == Outcome(Buffer(o.reader, Concat(later)), o.status)
  {
    DrainFailsStuck(g, Buffer(r, a));
    StuckForAll(g, Feed(g, r, a).reader, Feed(g, r, a).status, later);
  }

  lemma {:induction false} StuckForAll(g: Gcm, r: Reader, status: Status, later: seq<Bytes>)
    requires StuckWith(g, r, status) && later != []
    ensures FeedAll(g, r, later) == Outcome(Buffer(r, Concat(later)), status)
    decreases later
  {
    StepThenMore(g, r, later[0]);
    if |later| == 1 {
      assert Concat(later) == later[0];
    } else {
      StuckForAll(g, Buffer(r, later[0]), status, later[1..]);
      assert r.ct + later[0] + Concat(later[1..]) == r.ct + Concat(later);
    }
  }

  /** Any way of cutting the bytes gives the result of one call, as long as that call does not wrap. */
  lemma {:induction false} FeedAllIsFeed(g: Gcm, r: Reader, chunks: seq<Bytes>)
    requires chunks != [] && Feed(g, r, Concat(chunks)).status != Wrapped
    ensures FeedAll(g, r, chunks) == Feed(g, r, Concat(chunks))
    decreases chunks
  {
    if |chunks| == 1 {
      assert Concat(chunks) == chunks[0];
    } else {
      var a, b := chunks[0], Concat(chunks[1..]);
      assert Buffer(r, a + b) == Buffer(Buffer(r, a), b);
      DrainThenMore(g, Buffer(r, a), b);
      FeedAllIsFeed(g, Feed(g, r, a).reader, chunks[1..]);
    }
  }

  /** Hence for any bytes too few to use the counter up, every cutting gives the result of one call. */
  lemma CutsDoNotMatter(g: Gcm, r: Reader, chunks: seq<Bytes>)
    requires chunks != [] && TooShortToWrap(Buffer(r, Concat(chunks)))
    ensures FeedAll(g, r, chunks) == Feed(g, r, Concat(chunks))
  {
    if Feed(g, r, Concat(chunks)).status == Wrapped {
      WrapNeedsFrames(g, Buffer(r, Concat(chunks)));
    }
    FeedAllIsFeed(g, r, chunks);
  }

  // ---- Round trip ----

  /** The reader has seen exactly what the writer has emitted. */
  predicate InStep(w: Writer, r: Reader) {
    && r.key == w.key
    && r.headerRead == w.headerSent
    && (w.headerSent ==> r.nonce == w.nonce && r.streamNonce == w.streamNonce)
    && r.frames == w.frames
    && r.ct == []
  }

  lemma OpenOneFrame(g: Gcm, r: Reader, pt: Bytes, rest: Bytes)
    requires g.Lawful() && 0 < |pt| <= MAX_PAYLOAD && r.headerRead && Incr(r.nonce).1
    requires r.ct == FrameBytes(g, r.key, r.streamNonce, r.nonce, pt) + rest
    ensures OneStep(g, r) == Next(Count(r.(ct := rest, pt := r.pt + pt, nonce := Incr(r.nonce).0)))
  {
    var header := U32(|pt| + TAG_SIZE);
    var sealed := g.seal(r.key, r.nonce, r.streamNonce + header, pt);
    U32RoundTrip(|pt| + TAG_SIZE);
    assert r.ct == header + sealed + rest;
    assert r.ct[..4] == header;
    assert r.ct[4..4 + |sealed|] == sealed;
    assert r.ct[4 + |sealed|..] == rest;
  }

  /** The reader once it has the writer's nonce header, which the first frame carries. */
  lemma TakeEmittedHeader(g: Gcm, w: Writer, r: Reader, b: Bytes) returns (r': Reader)
    requires w.Valid() && InStep(w, r)
    ensures InStep(w.(headerSent := true), r') && r'.pt == r.pt
    ensures Drain(g, Buffer(r, HeaderBytes(w) + b)) == Drain(g, Buffer(r', b))
  {
    if w.headerSent {
      assert [] + b == b;
      return r;
    }
    var r0 := Buffer(r, w.nonce + b);
    assert r0.ct[..NONCE_SIZE] == w.nonce && r0.ct[NONCE_SIZE..] == b;
    r' := r.(nonce := w.nonce, streamNonce := w.nonce, headerRead := true);
    assert TakeHeader(r0) == Buffer(r', b);
  }

  lemma SealSucceeded(g: Gcm, w: Writer, call: SealCall)
    requires Seal(g, w, call).1.Some?
    ensures call.UsesNonce() && Incr(w.nonce).1
    ensures Seal(g, w, call).0 == w.(headerSent := true, nonce := Incr(w.nonce).0, frames := Tick(w.frames))
    ensures Seal(g, w, call).1.value == HeaderBytes(w) + FrameBytes(g, w.key, w.streamNonce, w.nonce, call.pt)
  {}

  lemma DrainEmitted(g: Gcm, w: Writer, r: Reader, call: SealCall, rest: Bytes) returns (r': Reader)
    requires g.Lawful() && w.Valid() && InStep(w, r) && Seal(g, w, call).1.Some?
    ensures InStep(Seal(g, w, call).0, r') && r'.pt == r.pt + call.pt
    ensures Feed(g, r, Seal(g, w, call).1.value + rest) == Feed(g, r', rest)
  {
    SealSucceeded(g, w, call);
    var frame := FrameBytes(g, w.key, w.streamNonce, w.nonce, call.pt);
    var r1 := TakeEmittedHeader(g, w, r, frame + rest);
    r' := Count(r1.(pt := r.pt + call.pt, nonce := Incr(w.nonce).0));
    assert Drain(g, Buffer(r1, frame + rest)) == Drain(g, Buffer(r', rest)) by {
      var r2 := Buffer(r1, frame + rest);
      assert r2.ct == frame + rest && Buffer(r', rest).ct == rest;
      OpenOneFrame(g, r2, call.pt, rest);
    }
    Assoc(HeaderBytes(w), frame, rest);
  }

  /** Number of calls that use up a counter value. */
  function Uses(calls: seq<SealCall>): nat {
    if calls == [] then 0 else (if calls[0].UsesNonce() then 1 else 0) + Uses(calls[1..])
  }

  /** The counter can advance `k` times without running over. */
  predicate HasRoom(n: NonceBytes, k: nat) {
    BigEndian(n) + k < Pow256(|n|)
  }

  lemma CounterRoom(n: NonceBytes, more: nat)
    requires HasRoom(n, 1 + more)
    ensures Incr(n).1 && HasRoom(Incr(n).0, more)
  {
    IncrCarries(n);
  }

  /** The first call that emits something, seen from both ends. */
  lemma FeedFirst(g: Gcm, w: Writer, r: Reader, calls: seq<SealCall>) returns (w': Writer, r': Reader)
    requires g.Lawful() && w.Valid() && InStep(w, r)
    requires calls != [] && calls[0].UsesNonce() && Incr(w.nonce).1
    ensures w'.Valid() && InStep(w', r') && w'.nonce == Incr(w.nonce).0 && r'.pt == r.pt + calls[0].pt
    ensures var run, rest := SealAll(g, w, calls), SealAll(g, w', calls[1..]);
            && Feed(g, r, run.wire) == Feed(g, r', rest.wire)
            && run.writer == rest.writer && run.plain == calls[0].pt + rest.plain
  {
    w' := Seal(g, w, calls[0]).0;
    r' := DrainEmitted(g, w, r, calls[0], SealAll(g, w', calls[1..]).wire);
  }

  lemma {:induction false} FeedWire(g: Gcm, w: Writer, r: Reader, calls: seq<SealCall>)
    requires g.Lawful() && w.Valid() && InStep(w, r)
    requires HasRoom(w.nonce, Uses(calls))
    ensures var run := SealAll(g, w, calls);
            var o := Feed(g, r, run.wire);
            o.status == Fed && InStep(run.writer, o.reader) && o.reader.pt == r.pt + run.plain
    decreases calls
  {
    if calls == [] {
      assert Buffer(r, []) == r;
    } else if !calls[0].UsesNonce() {
      FeedWire(g, w, r, calls[1..]);
    } else {
      CounterRoom(w.nonce, Uses(calls[1..]));
      var w', r' := FeedFirst(g, w, r, calls);
      FeedWire(g, w', r', calls[1..]);
      Assoc(r.pt, calls[0].pt, SealAll(g, w', calls[1..]).plain);
    }
  }

  /**
   Round trip: whatever a run of seals emits, re-cut in any way and fed to a reader in step with the
   writer, comes out as exactly the plaintexts sent, with the same frame count and nothing left over,
   as long as the run does not use the counter up.
   */
  lemma RoundTrip(g: Gcm, w: Writer, r: Reader, calls: seq<SealCall>, chunks: seq<Bytes>)
    requires g.Lawful() && w.Valid() && InStep(w, r)
    requires HasRoom(w.nonce, Uses(calls))
    requires chunks != [] && Concat(chunks) == SealAll(g, w, calls).wire
    ensures var run := SealAll(g, w, calls);
            var o := FeedAll(g, r, chunks);
            && o.status == Fed
            && o.reader.pt == r.pt + run.plain
            && o.reader.frames == run.writer.frames
            && o.reader.ct == []
            && InStep(run.writer, o.reader)
  {
    FeedWire(g, w, r, calls);
    FeedAllIsFeed(g, r, chunks);
  }

  // ---- What is on the wire ----

  /** A call emits a frame exactly for 1 to 64 KiB of plaintext, a working engine and a nonce that is not the last. */
  lemma EmitsIff(g: Gcm, w: Writer, call: SealCall)
    ensures Seal(g, w, call).1.Some? <==>
            1 <= |call.pt| <= 65536 && call.engineOk && BigEndian(w.nonce) + 1 < Pow256(NONCE_SIZE)
  {
    IncrCarries(w.nonce);
    BigEndianBound(Incr(w.nonce).0);
  }

  /** The plaintexts that a run of calls is to send. */
  function Sendable(calls: seq<SealCall>): seq<Bytes> {
    if calls == [] then []
    else
      var c := calls[0];
      (if 1 <= |c.pt| <= 65536 && c.engineOk then [c.pt] else []) + Sendable(calls[1..])
  }

  /**
   The sealed frames of `pts` as the protocol defines them: each its length with the tag in four bytes, most
   significant first, and the text sealed under the next number, with the stream nonce and the length as
   additional data.
   */
  function Format(g: Gcm, key: Bytes, streamNonce: Bytes, number: nat, pts: seq<Bytes>): Bytes
    decreases pts
  {
    if pts == [] then []
    else
      var length := ToBigEndian(|pts[0]| + 16, 4);
      length + g.seal(key, ToBigEndian(number, 12), streamNonce + length, pts[0]) +
      Format(g, key, streamNonce, number + 1, pts[1..])
  }

  lemma NonceIsNumber(n: NonceBytes)
    ensures ToBigEndian(BigEndian(n), 12) == n
  {
    BigEndianBound(n);
    ToBigEndianRoundTrip(BigEndian(n), 12);
    BigEndianInjective(ToBigEndian(BigEndian(n), 12), n);
  }

  /** One call that uses the counter, against the format. */
  lemma SealFormat(g: Gcm, w: Writer, call: SealCall)
    requires call.UsesNonce() && Incr(w.nonce).1
    ensures var (w', out) := Seal(g, w, call);
            && BigEndian(w'.nonce) == BigEndian(w.nonce) + 1
            && out.Some?
            && out.value == HeaderBytes(w) + Format(g, w.key, w.streamNonce, BigEndian(w.nonce), [call.pt])
  {
    IncrCarries(w.nonce);
    NonceIsNumber(w.nonce);
    var number := BigEndian(w.nonce);
    var frame := Format(g, w.key, w.streamNonce, number, [call.pt]);
    assert [call.pt][1..] == [];
    assert Format(g, w.key, w.streamNonce, number + 1, []) == [];
    var length := ToBigEndian(|call.pt| + 16, 4);
    assert frame == length + g.seal(w.key, w.nonce, w.streamNonce + length, call.pt) + [];
  }

  lemma FormatCons(g: Gcm, key: Bytes, streamNonce: Bytes, number: nat, pt: Bytes, pts: seq<Bytes>)
    ensures Format(g, key, streamNonce, number, [pt] + pts)
         == Format(g, key, streamNonce, number, [pt]) + Format(g, key, streamNonce, number + 1, pts)
  {
    assert ([pt] + pts)[1..] == pts && [pt][1..] == [];
    var length := ToBigEndian(|pt| + 16, 4);
    var frame := length + g.seal(key, ToBigEndian(number, 12), streamNonce + length, pt);
    assert frame + [] == frame;
  }

  /** The wire of a run, with the stream nonce in front of its first frame. */
  function Framed(g: Gcm, w: Writer, pts: seq<Bytes>): Bytes {
    (if pts == [] then [] else HeaderBytes(w)) + Format(g, w.key, w.streamNonce, BigEndian(w.nonce), pts)
  }

  lemma FramedCons(g: Gcm, w: Writer, w': Writer, pt: Bytes, pts: seq<Bytes>)
    requires w'.headerSent && w'.key == w.key && w'.streamNonce == w.streamNonce
    requires BigEndian(w'.nonce) == BigEndian(w.nonce) + 1
    ensures HeaderBytes(w) + Format(g, w.key, w.streamNonce, BigEndian(w.nonce), [pt]) + Framed(g, w', pts)
         == Framed(g, w, [pt] + pts)
  {
    FormatCons(g, w.key, w.streamNonce, BigEndian(w.nonce), pt, pts);
    var first := Format(g, w.key, w.streamNonce, BigEndian(w.nonce), [pt]);
    var others := Format(g, w.key, w.streamNonce, BigEndian(w.nonce) + 1, pts);
    assert [] + others == others;
    Assoc(HeaderBytes(w), first, others);
  }

  lemma {:induction false} WireIsFramed(g: Gcm, w: Writer, calls: seq<SealCall>)
    requires HasRoom(w.nonce, Uses(calls))
    ensures SealAll(g, w, calls).wire == Framed(g, w, Sendable(calls))
    decreases calls
  {
    if calls == [] {
    } else if !calls[0].UsesNonce() {
      assert [] + Sendable(calls[1..]) == Sendable(calls[1..]);
      WireIsFramed(g, w, calls[1..]);
    } else {
      CounterRoom(w.nonce, Uses(calls[1..]));
      SealFormat(g, w, calls[0]);
      var w' := Seal(g, w, calls[0]).0;
      WireIsFramed(g, w', calls[1..]);
      FramedCons(g, w, w', calls[0].pt, Sendable(calls[1..]));
    }
  }

  lemma {:induction false} PlainIsAll(g: Gcm, w: Writer, calls: seq<SealCall>)
    requires HasRoom(w.nonce, Uses(calls))
    ensures var run, pts := SealAll(g, w, calls), Sendable(calls);
            && run.plain == Concat(pts) && |pts| == Uses(calls)
            && (w.frames + |pts| < TWO_64 ==> run.writer.frames == w.frames + |pts|)
    decreases calls
  {
    if calls == [] {
    } else if !calls[0].UsesNonce() {
      assert [] + Sendable(calls[1..]) == Sendable(calls[1..]);
      PlainIsAll(g, w, calls[1..]);
    } else {
      CounterRoom(w.nonce, Uses(calls[1..]));
      PlainIsAll(g, Seal(g, w, calls[0]).0, calls[1..]);
      assert ([calls[0].pt] + Sendable(calls[1..]))[1..] == Sendable(calls[1..]);
    }
  }

  /**
   Everything a run of calls puts on the wire while the counter lasts: the stream nonce, once, in front of the
   first frame, and the frames of all sendable plaintexts under consecutive numbers; nothing is left out, and
   the frames are counted.
   */
  lemma WireFormat(g: Gcm, w: Writer, calls: seq<SealCall>)
    requires HasRoom(w.nonce, Uses(calls))
    ensures var run, pts := SealAll(g, w, calls), Sendable(calls);
            && run.wire == (if pts == [] || w.headerSent then [] else w.nonce) +
                           Format(g, w.key, w.streamNonce, BigEndian(w.nonce), pts)
            && run.plain == Concat(pts)
            && (w.frames + |pts| < TWO_64 ==> run.writer.frames == w.frames + |pts|)
  {
    WireIsFramed(g, w, calls);
    PlainIsAll(g, w, calls);
  }

  /** A reader refuses a frame by its length exactly when that is below the tag or above 64 KiB and the tag. */
  lemma LengthRefusedIff(g: Gcm, r: Reader, n: nat, rest: Bytes)
    requires r.headerRead && r.ct == [] && n < 0x1_0000_0000
    ensures OneStep(g, Buffer(r, ToBigEndian(n, 4) + rest)) == Stop(BadLength) <==> n < 16 || n > 65536 + 16
  {
    var b := ToBigEndian(n, 4) + rest;
    assert [] + b == b && b[..4] == U32(n);
    U32RoundTrip(n);
  }

  // ---- The round trip needs the room ----

  /** The call that uses the last counter value up emits nothing, and the counter starts over. */
  lemma SealWraps(g: Gcm, w: Writer, call: SealCall)
    requires call.UsesNonce() && !Incr(w.nonce).1
    ensures Seal(g, w, call) == (w.(headerSent := true, nonce := Zeros(NONCE_SIZE)), None)
    ensures Incr(Zeros(NONCE_SIZE)).1 && w.nonce != Zeros(NONCE_SIZE)
  {
    IncrCarries(w.nonce);
    BigEndianBound(Incr(w.nonce).0);
    ZerosAreZero(NONCE_SIZE);
    BigEndianInjective(Incr(w.nonce).0, Zeros(NONCE_SIZE));
    IncrCarries(Zeros(NONCE_SIZE));
    assert Pow256(NONCE_SIZE) > 1 by {
      assert Pow256(NONCE_SIZE) == 256 * Pow256(NONCE_SIZE - 1);
    }
  }

  lemma {:induction false} ZerosAreZero(n: nat)
    ensures BigEndian(Zeros(n)) == 0
  {
    if n == 0 {
    } else {
      assert Zeros(n)[..n - 1] == Zeros(n - 1);
      ZerosAreZero(n - 1);
    }
  }

  /** What a writer emits once its header is out: nothing, or a frame under its present counter first. */
  lemma {:induction false} EmitsFrameFirst(g: Gcm, w: Writer, calls: seq<SealCall>) returns (pt: Bytes, rest: Bytes)
    requires g.Lawful() && w.headerSent && Incr(w.nonce).1
    ensures var run := SealAll(g, w, calls);
            && run.writer.headerSent && run.writer.streamNonce == w.streamNonce
            && (if Uses(calls) == 0 then run.wire == [] && run.writer == w
                else 0 < |pt| <= MAX_PAYLOAD && run.wire == FrameBytes(g, w.key, w.streamNonce, w.nonce, pt) + rest)
    decreases calls
  {
    pt, rest := [], [];
    if calls == [] {
    } else if !calls[0].UsesNonce() {
      pt, rest := EmitsFrameFirst(g, w, calls[1..]);
    } else {
      var w' := Seal(g, w, calls[0]).0;
      pt, rest := calls[0].pt, SealAll(g, w', calls[1..]).wire;
      WriterKeeps(g, w', calls[1..]);
      assert [] + FrameBytes(g, w.key, w.streamNonce, w.nonce, pt) == FrameBytes(g, w.key, w.streamNonce, w.nonce, pt);
    }
  }

  lemma {:induction false} WriterKeeps(g: Gcm, w: Writer, calls: seq<SealCall>)
    ensures var w' := SealAll(g, w, calls).writer;
            w'.key == w.key && w'.streamNonce == w.streamNonce && (w.headerSent ==> w'.headerSent)
    decreases calls
  {
    if calls == [] {
    } else {
      WriterKeeps(g, Seal(g, w, calls[0]).0, calls[1..]);
    }
  }

  /** A reader on its last counter value does not get past a frame. */
  lemma LastFrameStops(g: Gcm, r: Reader, nonce: NonceBytes, pt: Bytes, rest: Bytes)
    requires g.Lawful() && r.headerRead && r.ct == [] && !Incr(r.nonce).1 && 0 < |pt| <= MAX_PAYLOAD
    ensures Feed(g, r, FrameBytes(g, r.key, r.streamNonce, nonce, pt) + rest).status in {OpenFailed, Wrapped}
  {
    var header := U32(|pt| + TAG_SIZE);
    var frame := FrameBytes(g, r.key, r.streamNonce, nonce, pt);
    var ct := frame + rest;
    U32RoundTrip(|pt| + TAG_SIZE);
    assert [] + ct == ct && ct[..4] == header;
    assert |frame| == 4 + |pt| + TAG_SIZE;
  }

  /** A reader keeps the header it has read. */
  lemma {:induction false} DrainKeepsHeader(g: Gcm, r: Reader)
    requires r.headerRead
    ensures Drain(g, r).reader.headerRead && Drain(g, r).reader.streamNonce == r.streamNonce
    decreases |r.ct|
  {
    if OneStep(g, r).Next? {
      DrainKeepsHeader(g, OneStep(g, r).reader);
    }
  }

  /** A frame is no stream header of all ones: its first byte is zero. */
  lemma FrameForHeader(g: Gcm, r: Reader, key: Bytes, streamNonce: Bytes, nonce: Bytes, pt: Bytes, rest: Bytes)
    requires g.Lawful() && !r.headerRead && r.ct == [] && 0 < |pt| <= MAX_PAYLOAD
    ensures Feed(g, r, FrameBytes(g, key, streamNonce, nonce, pt) + rest).reader.streamNonce[0] == 0
  {
    var frame := FrameBytes(g, key, streamNonce, nonce, pt);
    var ct := frame + rest;
    U32RoundTrip(|pt| + TAG_SIZE);
    assert |frame| >= 20 && [] + ct == ct;
    assert ct[0] == U32(|pt| + TAG_SIZE)[0] == 0;
    DrainKeepsHeader(g, TakeHeader(Buffer(r, ct)));
  }

  lemma {:induction false} WrapsOnOnes(s: Bytes)
    requires s != [] && !Incr(s).1
    ensures s[0] == 255
  {
    if |s| == 1 {
    } else {
      WrapsOnOnes(s[..|s| - 1]);
    }
  }

  /** After a call that ran the counter over, the two ends are never in step again. */
  lemma WrapSeparates(g: Gcm, w: Writer, r: Reader, calls: seq<SealCall>)
    requires g.Lawful() && w.Valid() && InStep(w, r)
    requires calls != [] && calls[0].UsesNonce() && !Incr(w.nonce).1
    ensures var run := SealAll(g, w, calls);
            var o := Feed(g, r, run.wire);
            !(o.status == Fed && InStep(run.writer, o.reader))
  {
    SealWraps(g, w, calls[0]);
    var w' := Seal(g, w, calls[0]).0;
    var pt, rest := EmitsFrameFirst(g, w', calls[1..]);
    var run := SealAll(g, w', calls[1..]);
    if Uses(calls[1..]) == 0 {
      assert Buffer(r, []) == r;
      assert w.headerSent ==> OneStep(g, r) == Stop(Fed);
    } else if w.headerSent {
      LastFrameStops(g, r, w'.nonce, pt, rest);
    } else {
      FrameForHeader(g, r, w'.key, w'.streamNonce, w'.nonce, pt, rest);
      WrapsOnOnes(w.nonce);
    }
  }

  /** One feed of everything a run emits succeeds and leaves both ends in step if and only if the counter lasts. */
  lemma {:induction false} OneFeedIff(g: Gcm, w: Writer, r: Reader, calls: seq<SealCall>)
    requires g.Lawful() && w.Valid() && InStep(w, r)
    ensures var run := SealAll(g, w, calls);
            var o := Feed(g, r, run.wire);
            o.status == Fed && InStep(run.writer, o.reader) <==> HasRoom(w.nonce, Uses(calls))
    decreases calls
  {
    BigEndianBound(w.nonce);
    if calls == [] {
      assert Buffer(r, []) == r;
    } else if !calls[0].UsesNonce() {
      OneFeedIff(g, w, r, calls[1..]);
    } else {
      IncrCarries(w.nonce);
      if Incr(w.nonce).1 {
        var w', r' := FeedFirst(g, w, r, calls);
        OneFeedIff(g, w', r', calls[1..]);
      } else {
        WrapSeparates(g, w, r, calls);
      }
    }
  }

  /** Every feed of the run returns success. */
  predicate AllFed(g: Gcm, r: Reader, chunks: seq<Bytes>)
    decreases chunks
  {
    chunks == [] || (Feed(g, r, chunks[0]).status == Fed && AllFed(g, Feed(g, r, chunks[0]).reader, chunks[1..]))
  }

  lemma {:induction false} AllFedIff(g: Gcm, r: Reader, chunks: seq<Bytes>)
    requires chunks != []
    ensures AllFed(g, r, chunks) <==> Feed(g, r, Concat(chunks)).status == Fed
    ensures AllFed(g, r, chunks) ==> FeedAll(g, r, chunks) == Feed(g, r, Concat(chunks))
    decreases chunks
  {
    if |chunks| == 1 {
      assert Concat(chunks) == chunks[0];
      assert AllFed(g, Feed(g, r, chunks[0]).reader, []);
    } else {
      var a, b := chunks[0], Concat(chunks[1..]);
      FailsAlready(g, r, a, b);
      if Feed(g, r, a).status == Fed {
        FeedIsHomomorphic(g, r, a, b);
        AllFedIff(g, Feed(g, r, a).reader, chunks[1..]);
      }
    }
  }

  /**
   The room is needed: whatever a run of seals emits, re-cut in any way, is fed without a failure and leaves the
   reader in step with the writer if and only if the run does not use the counter up.
   */
  lemma RoundTripIff(g: Gcm, w: Writer, r: Reader, calls: seq<SealCall>, chunks: seq<Bytes>)
    requires g.Lawful() && w.Valid() && InStep(w, r)
    requires chunks != [] && Concat(chunks) == SealAll(g, w, calls).wire
    ensures AllFed(g, r, chunks) && InStep(SealAll(g, w, calls).writer, FeedAll(g, r, chunks).reader)
            <==> HasRoom(w.nonce, Uses(calls))
  {
    OneFeedIff(g, w, r, calls);
    AllFedIff(g, r, chunks);
  }

  // ---- Nonces are not reused ----

  /** The counter before the next call, as far as it depends on which calls used it. */
  function NonceAfter(n: NonceBytes, calls: seq<SealCall>): NonceBytes
    decreases calls
  {
    if calls == [] then n else NonceAfter(if calls[0].UsesNonce() then Incr(n).0 else n, calls[1..])
  }

  lemma {:induction false} WriterNonce(g: Gcm, w: Writer, calls: seq<SealCall>)
    ensures SealAll(g, w, calls).writer.nonce == NonceAfter(w.nonce, calls)
    decreases calls
  {
    if calls == [] {
    } else {
      WriterNonce(g, Seal(g, w, calls[0]).0, calls[1..]);
    }
  }

  /** A counter at `v` after `u` more uses, at most once around. */
  function Advanced(v: nat, u: nat, m: nat): int {
    if v + u < m then v + u else v + u - m
  }

  lemma {:induction false} CounterAfter(n: NonceBytes, calls: seq<SealCall>)
    requires Uses(calls) <= Pow256(|n|)
    ensures BigEndian(NonceAfter(n, calls)) == Advanced(BigEndian(n), Uses(calls), Pow256(|n|))
    decreases calls
  {
    BigEndianBound(n);
    if calls == [] {
    } else {
      var n1 := if calls[0].UsesNonce() then Incr(n).0 else n;
      IncrCarries(n);
      CounterAfter(n1, calls[1..]);
    }
  }

  lemma {:induction false} NonceAfterInTwo(n: NonceBytes, a: seq<SealCall>, b: seq<SealCall>)
    ensures NonceAfter(n, a + b) == NonceAfter(NonceAfter(n, a), b)
    decreases a
  {
    if a == [] {
      assert a + b == b;
    } else {
      assert (a + b)[1..] == a[1..] + b;
      NonceAfterInTwo(if a[0].UsesNonce() then Incr(n).0 else n, a[1..], b);
    }
  }

  lemma {:induction false} UsesSplit(calls: seq<SealCall>, i: nat)
    requires i <= |calls|
    ensures Uses(calls) == Uses(calls[..i]) + Uses(calls[i..])
    ensures Uses(calls) <= |calls|
  {
    if i == 0 {
      assert calls[..0] == [] && calls[0..] == calls;
      if calls != [] {
        UsesSplit(calls[1..], 0);
      }
    } else {
      UsesSplit(calls[1..], i - 1);
      assert calls[..i][1..] == calls[1..][..i - 1];
      assert calls[i..] == calls[1..][i - 1..];
    }
  }

  /**
   Two points of a run at most 2^96 nonce-using calls apart have the same counter if and only if none, or
   exactly 2^96, of those calls lie between them.
   */
  lemma NonceReuse(n: NonceBytes, calls: seq<SealCall>, i: nat, j: nat)
    requires i <= j <= |calls| && Uses(calls[i..j]) <= Pow256(|n|)
    ensures NonceAfter(n, calls[..i]) == NonceAfter(n, calls[..j]) <==> Uses(calls[i..j]) in {0, Pow256(|n|)}
  {
    assert calls[..j] == calls[..i] + calls[i..j];
    NonceAfterInTwo(n, calls[..i], calls[i..j]);
    CounterReturns(NonceAfter(n, calls[..i]), calls[i..j]);
  }

  lemma CounterReturns(n: NonceBytes, calls: seq<SealCall>)
    requires Uses(calls) <= Pow256(|n|)
    ensures NonceAfter(n, calls) == n <==> Uses(calls) in {0, Pow256(|n|)}
  {
    var n' := NonceAfter(n, calls);
    CounterAfter(n, calls);
    BigEndianBound(n);
    if BigEndian(n) == BigEndian(n') {
      BigEndianInjective(n, n');
    }
  }

  /**
   Hence in a run of at most 2^96 calls, failed ones included, a call that emits a frame and any later call
   never seal under the same nonce.
   */
  lemma NoncesDistinct(g: Gcm, w: Writer, calls: seq<SealCall>, i: nat, j: nat)
    requires i < j < |calls| <= Pow256(|w.nonce|)
    requires Seal(g, SealAll(g, w, calls[..i]).writer, calls[i]).1.Some?
    ensures SealAll(g, w, calls[..i]).writer.nonce != SealAll(g, w, calls[..j]).writer.nonce
  {
    WriterNonce(g, w, calls[..i]);
    WriterNonce(g, w, calls[..j]);
    var between := calls[i..j];
    assert 0 < Uses(between) <= |between| by {
      UsesSplit(between, 1);
      assert between[0] == calls[i];
    }
    NonceReuse(w.nonce, calls, i, j);
  }

  // ---- What goes wrong at the wrap ----

  function ClearGcm(): Gcm {
    Gcm((k, n, a, p) => p + Zeros(TAG_SIZE),
        (k, n, a, c) => if |c| < TAG_SIZE then None else Some(c[..|c| - TAG_SIZE]))
  }

  function LastNonce(): NonceBytes {
    seq(NONCE_SIZE, _ => 255)
  }

  /**
   A writer whose random first nonce is the last one marks its header as sent without sending it.
   The next frame goes out bare, and the reader rejects it.
   */
  lemma RoundTripFailsOnWrap()
    ensures var g := ClearGcm();
            var w := Writer([], LastNonce(), LastNonce(), false, 0);
            var r := Reader([], LastNonce(), LastNonce(), false, 0, [], []);
            var run := SealAll(g, w, [SealCall([7], true), SealCall([8], true)]);
            && g.Lawful() && w.Valid() && InStep(w, r)
            && run.plain == [8]
            && Feed(g, r, run.wire) == Outcome(TakeHeader(Buffer(r, run.wire)), BadLength)
  {
    var r := Reader([], LastNonce(), LastNonce(), false, 0, [], []);
    SealAcrossWrap();
    BareFrameRejected(r, [0, 0, 0, 17, 8] + Zeros(16));
  }

  lemma SealAcrossWrap()
    ensures var w := Writer([], LastNonce(), LastNonce(), false, 0);
            var run := SealAll(ClearGcm(), w, [SealCall([7], true), SealCall([8], true)]);
            run.wire == [0, 0, 0, 17, 8] + Zeros(16) && run.plain == [8]
  {
    var g, w := ClearGcm(), Writer([], LastNonce(), LastNonce(), false, 0);
    var c1, c2 := SealCall([7], true), SealCall([8], true);
    AllOnesWrap(w.nonce);
    var w1 := Seal(g, w, c1).0;
    assert w1.nonce == Zeros(NONCE_SIZE) && Incr(w1.nonce).1;
    assert [c1, c2][1..] == [c2] && [c2][1..] == [];
    var frame := FrameBytes(g, [], w1.streamNonce, w1.nonce, [8]);
    assert frame == [0, 0, 0, 17, 8] + Zeros(16) && [] + frame + [] == frame;
    assert SealAll(g, w1, [c2]).wire == frame;
  }

  lemma BareFrameRejected(r: Reader, frame: Bytes)
    requires !r.headerRead && r.ct == [] && frame == [0, 0, 0, 17, 8] + Zeros(16)
    ensures Feed(ClearGcm(), r, frame) == Outcome(TakeHeader(Buffer(r, frame)), BadLength)
  {
    var r0 := Buffer(r, frame);
    var r1 := TakeHeader(r0);
    assert r0.ct == frame && |frame| == 21;
    assert r1.ct[..4] == [0, 0, 0, 0];
    assert Get32([0, 0, 0, 0]) == 0;
    assert OneStep(ClearGcm(), r1) == Stop(BadLength);
    assert Drain(ClearGcm(), r1) == Outcome(r1, BadLength);
  }

  lemma {:induction false} AllOnesWrap(s: Bytes)
    requires forall i :: 0 <= i < |s| ==> s[i] == 255
    ensures Incr(s).0 == Zeros(|s|) && !Incr(s).1
  {
    if s == [] {
    } else {
      AllOnesWrap(s[..|s| - 1]);
    }
  }

  // ---- The stateful objects ----

  class AeadWriter {
    const key: Bytes
    const streamNonce: NonceBytes
    const nonce: array<Byte>
    var headerSent: bool
    var frameCount: nat

    ghost predicate Valid()
      reads this, nonce
    {
      nonce.Length == NONCE_SIZE && View().Valid()
    }

    ghost function View(): Writer
      requires nonce.Length == NONCE_SIZE
      reads this, nonce
    {
      Writer(key, streamNonce, nonce[..], headerSent, frameCount)
    }

    constructor (key: Bytes, random: NonceBytes)
      ensures Valid() && fresh(nonce)
      ensures View() == Writer(key, random, random, false, 0)
    {
      this.key := key;
      streamNonce := random;
      nonce := new Byte[NONCE_SIZE](i requires 0 <= i < NONCE_SIZE => random[i]);
      headerSent, frameCount := false, 0;
      new;
      assert nonce[..] == random;
    }

    method SealFrame(g: Gcm, call: SealCall) returns (out: Option<Bytes>)
      requires Valid()
      modifies this, nonce
      ensures Valid()
      ensures (View(), out) == Seal(g, old(View()), call)
    {
      if |call.pt| == 0 || |call.pt| > MAX_PAYLOAD || !call.engineOk {
        return None;
      }
      var header := U32(|call.pt| + TAG_SIZE);
      var ct := g.seal(key, nonce[..], streamNonce + header, call.pt);
      var buf := [];
      if !headerSent {
        buf := nonce[..];
        headerSent := true;
      }
      buf := buf + (header + ct);
      var ok := IncrementNonce(nonce);
      if !ok {
        return None;
      }
      frameCount := Tick(frameCount);
      return Some(buf);
    }
  }

  class AeadReader {
    const key: Bytes
    const nonce: array<Byte>
    var streamNonce: NonceBytes
    var headerRead: bool
    var frameCount: nat
    var ctBuf: Bytes
    var ptBuf: Bytes

    predicate Valid() {
      nonce.Length == NONCE_SIZE
    }

    ghost function View(): Reader
      requires Valid()
      reads this, nonce
    {
      Reader(key, streamNonce, nonce[..], headerRead, frameCount, ctBuf, ptBuf)
    }

    constructor (key: Bytes)
      ensures Valid() && fresh(nonce)
      ensures View() == Reader(key, Zeros(NONCE_SIZE), Zeros(NONCE_SIZE), false, 0, [], [])
    {
      this.key := key;
      streamNonce := Zeros(NONCE_SIZE);
      nonce := new Byte[NONCE_SIZE](_ => 0);
      headerRead, frameCount, ctBuf, ptBuf := false, 0, [], [];
      new;
      assert nonce[..] == Zeros(NONCE_SIZE);
    }

    method ReadHeader()
      requires Valid() && |ctBuf| >= NONCE_SIZE
      modifies this, nonce
      ensures View() == TakeHeader(old(View()))
    {
      streamNonce := ctBuf[..NONCE_SIZE];
      forall i | 0 <= i < NONCE_SIZE {
        nonce[i] := ctBuf[i];
      }
      assert nonce[..] == ctBuf[..NONCE_SIZE];
      ctBuf := ctBuf[NONCE_SIZE..];
      headerRead := true;
    }

    method AcceptFrame(clen: nat, text: Bytes) returns (ok: bool)
      requires Valid() && 4 + clen <= |ctBuf|
      modifies this, nonce
      ensures View() == Accept(old(View()), clen, text)
      ensures ok == Incr(old(nonce[..])).1
    {
      ctBuf := ctBuf[4 + clen..];
      ptBuf := ptBuf + text;
      ok := IncrementNonce(nonce);
    }

    /** The part of a turn that handles the frame at the front of the buffer. */
    method FrameTurn(g: Gcm) returns (done: bool, status: Status)
      requires Valid() && headerRead
      modifies this, nonce
      ensures match OneStep(g, old(View()))
              case Stop(st) => done && status == st && View() == old(View())
              case Halt(r) => done && status == Wrapped && View() == r
              case Next(r) => !done && View() == r
    {
      if |ctBuf| < 4 {
        return true, Fed;
      }
      var clen := Get32(ctBuf[..4]);
      if BadFrameLength(clen) {
        return true, BadLength;
      }
      if |ctBuf| < 4 + clen {
        return true, Fed;
      }
      var text := g.open(key, nonce[..], streamNonce + ctBuf[..4], ctBuf[4..4 + clen]);
      if text.None? {
        return true, OpenFailed;
      }
      var ok := AcceptFrame(clen, text.value);
      if !ok {
        return true, Wrapped;
      }
      frameCount := Tick(frameCount);
      return false, Fed;
    }

    method FeedBytes(g: Gcm, ct: Bytes) returns (status: Status)
      requires Valid()
      modifies this, nonce
      ensures Outcome(View(), status) == Feed(g, old(View()), ct)
    {
      ctBuf := ctBuf + ct;
      ghost var goal := Drain(g, View());
      while true
        invariant Drain(g, View()) == goal
        decreases |ctBuf|
      {
        if !headerRead {
          if |ctBuf| < NONCE_SIZE {
            return Fed;
          }
          ReadHeader();
        }
        ghost var before := View();
        assert Drain(g, before) == goal;
        var done;
        done, status := FrameTurn(g);
        if done {
          return;
        }
      }
    }
  }
}
