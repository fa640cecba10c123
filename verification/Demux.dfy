/**
 The resumable demultiplexer (src/control.c, `handle_tcp_mux` and the multiplexed half of `recv_cb`).

 What a frame does is a parameter: the handler says which ids are registered, what a DATA frame does to
 the session and whether its payload was taken off the connection, and what a control frame does.
 */
module Demux {
  import opened Bytes
  import opened MuxFrames

  datatype Handler<!S> = Handler(registered: (S, nat) -> bool,
                                 data: (S, Header, Bytes) -> (S, bool),
                                 control: (S, Header) -> S)

  /** `cur_stream`: none, a registered stream, or the stand-in that swallows payload for unknown ones. */
  datatype Cur = NoStream | Stream(id: nat) | Abandoned

  /** `partial` is a header still being gathered, `header` the last complete one, `input` the unread bytes. */
  datatype Parser = Parser(partial: Bytes, header: Bytes, cur: Cur, streamLen: nat, input: Bytes)
  {
    predicate Valid() {
      |partial| < HEADER_SIZE && |header| == HEADER_SIZE && (cur != NoStream ==> partial == [])
    }
  }

  function Fresh(): Parser {
    Parser([], EncodeHeader(Header(0, 0, 0, 0, 0)), NoStream, 0, [])
  }

  /** A loop turn either breaks or goes on with `len` bytes of this read still to handle. */
  datatype Turn<S> = Break(d: Parser, s: S) | Continue(d: Parser, s: S, len: nat)

  /** `len` never exceeds what is buffered, and a partial header is only ever met with `len` exact. */
  predicate InLoop(d: Parser, len: nat) {
    d.Valid() && len <= |d.input| && (d.partial != [] ==> len == |d.input|)
  }

  function OneTurn<S>(h: Handler<S>, d: Parser, s: S, len: nat): (t: Turn<S>)
    requires InLoop(d, len) && len > 0
    ensures t.d.Valid()
    ensures t.Continue? ==> InLoop(t.d, t.len) && t.d.partial == [] &&
                            (t.len < len || (t.len == len && d.cur != NoStream && t.d.cur == NoStream))
  {
    if d.cur != NoStream then Payload(h, d, s, len, d.cur)
    else
      var (d', left, complete) := Gather(d, len);
      if complete then AfterHeader(h, d', s, left) else Break(d', s)
  }

  /** Header accumulation: the parser, what is left of the read, and whether the header is complete. */
  function Gather(d: Parser, len: nat): (r: (Parser, nat, bool))
    requires InLoop(d, len) && len > 0 && d.cur == NoStream
    ensures r.0.Valid() && r.0.cur == NoStream
    ensures r.2 ==> InLoop(r.0, r.1) && r.0.partial == [] && r.1 < len
  {
    if d.partial != [] then
      var n := Min(HEADER_SIZE - |d.partial|, |d.input|);
      var got := d.partial + d.input[..n];
      if |got| < HEADER_SIZE then (d.(partial := got, input := d.input[n..]), len - n, false)
      else (d.(partial := [], header := got, input := d.input[n..]), len - n, true)
    else if len < HEADER_SIZE then
      (d.(partial := d.input[..len], input := d.input[len..]), 0, false)
    else
      (d.(header := d.input[..HEADER_SIZE], input := d.input[HEADER_SIZE..]), len - HEADER_SIZE, true)
  }

  function AfterHeader<S>(h: Handler<S>, d: Parser, s: S, len: nat): (t: Turn<S>)
    requires InLoop(d, len) && d.cur == NoStream && d.partial == []
    ensures t.d.Valid()
    ensures t.Continue? ==> InLoop(t.d, t.len) && t.len <= len && t.d.partial == []
  {
    var hdr := DecodeHeader(d.header);
    if !hdr.Valid() then Break(d, s)
    else if hdr.kind == DATA then
      var d' := d.(streamLen := hdr.length);
      if hdr.length > MAX_STREAM_WINDOW then Break(d', s)
      else if !h.registered(s, hdr.id) && hdr.length == 0 then Continue(d', s, len)
      else
        var cur := if h.registered(s, hdr.id) then Stream(hdr.id) else Abandoned;
        if len == 0 then Break(d'.(cur := cur), s) else Payload(h, d', s, len, cur)
    else Payload(h, d, s, len, NoStream)
  }

  /** The second half of a turn; `cur` is the local variable, which need not be in `d.cur` yet. */
  function Payload<S>(h: Handler<S>, d: Parser, s: S, len: nat, cur: Cur): (t: Turn<S>)
    requires d.Valid() && d.partial == [] && len <= |d.input|
    ensures t.d.Valid()
    ensures t.Continue? ==> t.len <= len <= |d.input| && t.len <= |t.d.input| && t.d.partial == d.partial
    ensures t.Continue? && t.len == len && len > 0 ==> t.d.cur == NoStream
  {
    var hdr := DecodeHeader(d.header);
    if hdr.kind == DATA && d.streamLen > 0 then
      var toRead := Min(len, d.streamLen);
      if cur == Abandoned then
        var left := d.streamLen - toRead;
        Continue(d.(input := d.input[toRead..], streamLen := left, cur := if left == 0 then NoStream else d.cur),
                 s, len - toRead)
      else if toRead < d.streamLen then Break(d.(cur := cur), s)
      else
        var (s', taken) := h.data(s, hdr, d.input[..d.streamLen]);
        var input := if taken then d.input[d.streamLen..] else d.input;
        Continue(d.(input := input, streamLen := 0, cur := NoStream), s', len - d.streamLen)
    else if hdr.kind == WINDOW_UPDATE || hdr.kind == PING || hdr.kind == GO_AWAY then
      Continue(d.(cur := NoStream), h.control(s, hdr), len)
    else Break(d, s)
  }

  function Loop<S>(h: Handler<S>, d: Parser, s: S, len: nat): (r: (Parser, S))
    requires InLoop(d, len)
    ensures r.0.Valid()
    decreases len, d.cur != NoStream
  {
    if len == 0 then (d, s)
    else
      match OneTurn(h, d, s, len)
      case Break(d', s') => (d', s')
      case Continue(d', s', len') => Loop(h, d', s', len')
  }

  /** The loop from the end of a turn on. */
  function Resume<S>(h: Handler<S>, t: Turn<S>): (Parser, S)
    requires t.Continue? ==> InLoop(t.d, t.len)
  {
    if t.Break? then (t.d, t.s) else Loop(h, t.d, t.s, t.len)
  }

  /** One read callback: the new bytes join the unread ones and the loop runs over all of them. */
  function Read<S>(h: Handler<S>, d: Parser, s: S, chunk: Bytes): (r: (Parser, S))
    requires d.Valid()
    ensures r.0.Valid()
  {
    var d' := d.(input := d.input + chunk);
    Loop(h, d', s, |d'.input|)
  }

  // ---- The reference: frames off the front of a byte string ----

  function HeadOf(b: Bytes): Header
    requires |b| >= HEADER_SIZE
  {
    DecodeHeader(b[..HEADER_SIZE])
  }

  /** Bytes the frame at the front occupies. */
  function SizeOf(hdr: Header): nat {
    HEADER_SIZE + if hdr.kind == DATA then hdr.length else 0
  }

  predicate Complete(b: Bytes) {
    |b| >= HEADER_SIZE && |b| >= SizeOf(HeadOf(b))
  }

  /** What the frame at the front of `b` does to the session; frames for unknown streams do nothing. */
  function Apply<S>(h: Handler<S>, s: S, b: Bytes): S
    requires Complete(b)
  {
    var hdr := HeadOf(b);
    if hdr.kind != DATA then h.control(s, hdr)
    else if h.registered(s, hdr.id) then h.data(s, hdr, b[HEADER_SIZE..SizeOf(hdr)]).0
    else s
  }

  /** Apply every complete frame in order; the second result is the incomplete rest. */
  function Decode<S>(h: Handler<S>, s: S, b: Bytes): (r: (S, Bytes))
    ensures |r.1| <= |b|
    decreases |b|
  {
    if !Complete(b) then (s, b) else Decode(h, Apply(h, s, b), b[SizeOf(HeadOf(b))..])
  }

  /** A header the parser accepts: known version and kind, and a DATA length in range, not zero if registered. */
  predicate GoodHeader<S>(h: Handler<S>, s: S, hdr: Header) {
    && hdr.Valid()
    && (hdr.kind == DATA ==> hdr.length <= MAX_STREAM_WINDOW && (h.registered(s, hdr.id) ==> hdr.length > 0))
  }

  /** Every frame begun in `b` has a good header, and each handler met takes its payload. */
  predicate Tame<S>(h: Handler<S>, s: S, b: Bytes)
    decreases |b|
  {
    |b| >= HEADER_SIZE ==>
      var hdr := HeadOf(b);
      && GoodHeader(h, s, hdr)
      && (Complete(b) ==>
            && (hdr.kind == DATA && h.registered(s, hdr.id) ==> h.data(s, hdr, b[HEADER_SIZE..SizeOf(hdr)]).1)
            && Tame(h, Apply(h, s, b), b[SizeOf(hdr)..]))
  }

  lemma FrontUnchanged<S>(h: Handler<S>, s: S, a: Bytes, b: Bytes)
    requires |a| >= HEADER_SIZE
    ensures HeadOf(a + b) == HeadOf(a)
    ensures Complete(a) ==>
              && (a + b)[HEADER_SIZE..SizeOf(HeadOf(a))] == a[HEADER_SIZE..SizeOf(HeadOf(a))]
              && (a + b)[SizeOf(HeadOf(a))..] == a[SizeOf(HeadOf(a))..] + b
              && Complete(a + b) && Apply(h, s, a + b) == Apply(h, s, a)
  {
    assert (a + b)[..HEADER_SIZE] == a[..HEADER_SIZE];
  }

  /** The reference is incremental. */
  lemma {:induction false} DecodeInTwo<S>(h: Handler<S>, s: S, a: Bytes, b: Bytes)
    ensures var (s1, rest) := Decode(h, s, a);
            && Decode(h, s, a + b) == Decode(h, s1, rest + b)
            && (Tame(h, s, a + b) <==> Tame(h, s, a) && Tame(h, s1, rest + b))
    decreases |a|
  {
    if |a| >= HEADER_SIZE {
      FrontUnchanged(h, s, a, b);
      if Complete(a) {
        DecodeInTwo(h, Apply(h, s, a), a[SizeOf(HeadOf(a))..], b);
      }
    }
  }

  // ---- Where the parser stands between reads ----

  /** The parser holds exactly the incomplete frame `rest`. */
  predicate Holds<S>(h: Handler<S>, s: S, d: Parser, rest: Bytes) {
    && d.Valid()
    && match d.cur
       case NoStream => d.partial == rest && d.input == []
       case Stream(id) =>
         && |rest| >= HEADER_SIZE && d.header == rest[..HEADER_SIZE] && d.input == rest[HEADER_SIZE..]
         && var hdr := HeadOf(rest);
            hdr.kind == DATA && hdr.id == id && h.registered(s, id) && d.streamLen == hdr.length > |d.input|
       case Abandoned =>
         && |rest| >= HEADER_SIZE && d.header == rest[..HEADER_SIZE] && d.input == []
         && var hdr := HeadOf(rest);
            && hdr.kind == DATA && !h.registered(s, hdr.id)
            && d.streamLen == hdr.length - (|rest| - HEADER_SIZE) > 0
  }

  /** The rest is a frame for an unknown stream of which some payload has already been swallowed. */
  predicate HalfSwallowed<S>(h: Handler<S>, s: S, rest: Bytes) {
    |rest| > HEADER_SIZE && HeadOf(rest).kind == DATA && !h.registered(s, HeadOf(rest).id)
  }

  /** From a fresh frame boundary the loop does what the reference does. */
  lemma {:induction false} LoopDecodes<S>(h: Handler<S>, d: Parser, s: S)
    requires d.Valid() && d.cur == NoStream && d.partial == [] && Tame(h, s, d.input)
    ensures var (d', s') := Loop(h, d, s, |d.input|);
            var (t, rest) := Decode(h, s, d.input);
            s' == t && (Holds(h, t, d', rest) <==> !HalfSwallowed(h, t, rest))
    decreases |d.input|, 1
  {
    var len := |d.input|;
    if 0 < len < HEADER_SIZE {
      assert d.input[..len] == d.input;
    } else if len >= HEADER_SIZE {
      var d1 := d.(header := d.input[..HEADER_SIZE], input := d.input[HEADER_SIZE..]);
      HeaderDecodes(h, d1, s, d.input);
    }
  }

  /** The loop once the header of `all` has been read, whether in one read or in several. */
  lemma {:induction false} HeaderDecodes<S>(h: Handler<S>, d: Parser, s: S, all: Bytes)
    requires d.Valid() && d.cur == NoStream && d.partial == []
    requires |all| >= HEADER_SIZE && d.header == all[..HEADER_SIZE] && d.input == all[HEADER_SIZE..]
    requires Tame(h, s, all)
    ensures var (t, rest) := Decode(h, s, all);
            var (d', s') := Resume(h, AfterHeader(h, d, s, |d.input|));
            s' == t && (Holds(h, t, d', rest) <==> !HalfSwallowed(h, t, rest))
    decreases |all|, 0
  {
    if Complete(all) {
      CompleteFrame(h, d, s, all);
      var t := AfterHeader(h, d, s, |d.input|);
      LoopDecodes(h, t.d, t.s);
    }
  }

  /** A frame that is there in full is applied and taken off the front. */
  lemma CompleteFrame<S>(h: Handler<S>, d: Parser, s: S, all: Bytes)
    requires d.Valid() && d.cur == NoStream && d.partial == []
    requires Complete(all) && d.header == all[..HEADER_SIZE] && d.input == all[HEADER_SIZE..]
    requires Tame(h, s, all)
    ensures var t := AfterHeader(h, d, s, |d.input|);
            && t.Continue? && t.d.cur == NoStream && t.d.partial == []
            && t.d.input == all[SizeOf(HeadOf(all))..] && t.len == |t.d.input| && t.s == Apply(h, s, all)
  {
    var n := SizeOf(HeadOf(all)) - HEADER_SIZE;
    assert d.input[n..] == all[HEADER_SIZE + n..];
    assert d.input[..n] == all[HEADER_SIZE..HEADER_SIZE + n];
  }

  /**
   The read swallowed part of the payload of an unknown stream's frame whose header it also completed.
   The stand-in is then not remembered, and the rest of that payload will be taken for headers.
   */
  predicate Forgets<S>(h: Handler<S>, s: S, before: Bytes, chunk: Bytes) {
    var (t, rest) := Decode(h, s, before + chunk);
    HalfSwallowed(h, t, rest) && !(|before| >= HEADER_SIZE && |rest| == |before| + |chunk|)
  }

  /**
   One read, from wherever the parser stands: the session is what the reference says, and the parser
   holds exactly the incomplete last frame if and only if the read does not forget one.
   */
  lemma ReadDecodes<S>(h: Handler<S>, d: Parser, s: S, before: Bytes, chunk: Bytes)
    requires Holds(h, s, d, before) && Tame(h, s, before + chunk)
    ensures var (d', s') := Read(h, d, s, chunk);
            var (t, rest) := Decode(h, s, before + chunk);
            s' == t && (Holds(h, t, d', rest) <==> !Forgets(h, s, before, chunk))
  {
    match d.cur
    case NoStream => ReadFromBoundary(h, d, s, before, chunk);
    case Stream(_) => ReadMorePayload(h, d, s, before, chunk);
    case Abandoned => ReadMoreAbandoned(h, d, s, before, chunk);
  }

  lemma ReadFromBoundary<S>(h: Handler<S>, d: Parser, s: S, before: Bytes, chunk: Bytes)
    requires Holds(h, s, d, before) && Tame(h, s, before + chunk) && d.cur == NoStream
    ensures var (d', s') := Read(h, d, s, chunk);
            var (t, rest) := Decode(h, s, before + chunk);
            s' == t && (Holds(h, t, d', rest) <==> !Forgets(h, s, before, chunk))
  {
    var all := before + chunk;
    assert d.input + chunk == chunk;
    if before == [] {
      assert all == chunk;
      LoopDecodes(h, d.(input := chunk), s);
    } else if |all| < HEADER_SIZE {
      GatherMore(h, d, s, chunk);
    } else {
      ReadCompletesHeader(h, d, s, before, chunk);
    }
  }

  lemma ReadCompletesHeader<S>(h: Handler<S>, d: Parser, s: S, before: Bytes, chunk: Bytes)
    requires d.Valid() && d.cur == NoStream && d.input == [] && d.partial == before != []
    requires |before + chunk| >= HEADER_SIZE && Tame(h, s, before + chunk)
    ensures var (d', s') := Read(h, d, s, chunk);
            var (t, rest) := Decode(h, s, before + chunk);
            s' == t && (Holds(h, t, d', rest) <==> !HalfSwallowed(h, t, rest))
  {
    var all, n := before + chunk, HEADER_SIZE - |before|;
    assert before + chunk[..n] == all[..HEADER_SIZE] && chunk[n..] == all[HEADER_SIZE..];
    GatherRest(h, d, s, chunk);
    HeaderDecodes(h, d.(partial := [], header := all[..HEADER_SIZE], input := all[HEADER_SIZE..]), s, all);
  }

  /** More of a header, but not the end of it. */
  lemma GatherMore<S>(h: Handler<S>, d: Parser, s: S, chunk: Bytes)
    requires d.Valid() && d.cur == NoStream && d.input == [] && d.partial != [] && |d.partial + chunk| < HEADER_SIZE
    ensures Read(h, d, s, chunk) == (d.(partial := d.partial + chunk), s)
  {
    assert [] + chunk == chunk && chunk[..|chunk|] == chunk && chunk[|chunk|..] == [];
    if chunk == [] {
      assert d.partial + [] == d.partial;
    }
  }

  /** The end of a header. */
  lemma GatherRest<S>(h: Handler<S>, d: Parser, s: S, chunk: Bytes)
    requires d.Valid() && d.cur == NoStream && d.input == [] && d.partial != [] && |d.partial + chunk| >= HEADER_SIZE
    ensures var n := HEADER_SIZE - |d.partial|;
            var d' := d.(partial := [], header := d.partial + chunk[..n], input := chunk[n..]);
            Read(h, d, s, chunk) == Resume(h, AfterHeader(h, d', s, |d'.input|))
  {
    assert [] + chunk == chunk;
    var n := HEADER_SIZE - |d.partial|;
    var d' := d.(partial := [], header := d.partial + chunk[..n], input := chunk[n..]);
    assert Gather(d.(input := chunk), |chunk|) == (d', |chunk| - n, true);
  }

  lemma ReadMorePayload<S>(h: Handler<S>, d: Parser, s: S, before: Bytes, chunk: Bytes)
    requires Holds(h, s, d, before) && Tame(h, s, before + chunk) && d.cur.Stream?
    ensures var (d', s') := Read(h, d, s, chunk);
            var (t, rest) := Decode(h, s, before + chunk);
            s' == t && (Holds(h, t, d', rest) <==> !Forgets(h, s, before, chunk))
  {
    var all := before + chunk;
    var d0 := d.(input := d.input + chunk);
    FrontUnchanged(h, s, before, chunk);
    assert all[..HEADER_SIZE] == d.header;
    assert d0.input == all[HEADER_SIZE..];
    if Complete(all) {
      TakePayload(h, d0, s, all);
      LoopDecodes(h, d0.(input := all[SizeOf(HeadOf(all))..], streamLen := 0, cur := NoStream), Apply(h, s, all));
    }
  }

  /** A payload that has become complete is dispatched. */
  lemma TakePayload<S>(h: Handler<S>, d: Parser, s: S, all: Bytes)
    requires d.Valid() && d.cur.Stream? && Complete(all) && HeadOf(all).kind == DATA && Tame(h, s, all)
    requires d.header == all[..HEADER_SIZE] && d.input == all[HEADER_SIZE..]
    requires d.streamLen == HeadOf(all).length > 0 && h.registered(s, HeadOf(all).id)
    ensures var d' := d.(input := all[SizeOf(HeadOf(all))..], streamLen := 0, cur := NoStream);
            Loop(h, d, s, |d.input|) == Loop(h, d', Apply(h, s, all), |d'.input|)
  {
    var n := d.streamLen;
    assert d.input[..n] == all[HEADER_SIZE..HEADER_SIZE + n] && d.input[n..] == all[HEADER_SIZE + n..];
    var d' := d.(input := all[HEADER_SIZE + n..], streamLen := 0, cur := NoStream);
    assert OneTurn(h, d, s, |d.input|) == Continue(d', Apply(h, s, all), |d'.input|);
  }

  /** More payload for an unknown stream, but not the end of it. */
  lemma SwallowPart<S>(h: Handler<S>, d: Parser, s: S, chunk: Bytes)
    requires d.Valid() && d.cur.Abandoned? && d.input == [] && DecodeHeader(d.header).kind == DATA
    requires 0 < |chunk| < d.streamLen
    ensures Read(h, d, s, chunk) == (d.(streamLen := d.streamLen - |chunk|), s)
  {
    assert [] + chunk == chunk && chunk[|chunk|..] == [];
    var t := OneTurn(h, d.(input := chunk), s, |chunk|);
    assert t == Continue(d.(streamLen := d.streamLen - |chunk|), s, 0);
    assert Loop(h, t.d, s, 0) == (t.d, s);
  }

  /** The end of the payload for an unknown stream; the loop goes on behind it. */
  lemma SwallowRest<S>(h: Handler<S>, d: Parser, s: S, chunk: Bytes)
    requires d.Valid() && d.cur.Abandoned? && d.input == [] && DecodeHeader(d.header).kind == DATA
    requires 0 < d.streamLen <= |chunk|
    ensures var d' := d.(input := chunk[d.streamLen..], streamLen := 0, cur := NoStream);
            Read(h, d, s, chunk) == Loop(h, d', s, |d'.input|)
  {
    assert [] + chunk == chunk;
  }

  lemma ReadMoreAbandoned<S>(h: Handler<S>, d: Parser, s: S, before: Bytes, chunk: Bytes)
    requires Holds(h, s, d, before) && Tame(h, s, before + chunk) && d.cur.Abandoned?
    ensures var (d', s') := Read(h, d, s, chunk);
            var (t, rest) := Decode(h, s, before + chunk);
            s' == t && (Holds(h, t, d', rest) <==> !Forgets(h, s, before, chunk))
  {
    var all := before + chunk;
    FrontUnchanged(h, s, before, chunk);
    assert all[..HEADER_SIZE] == d.header;
    if chunk == [] {
      assert all == before;
    } else if |chunk| < d.streamLen {
      SwallowPart(h, d, s, chunk);
    } else {
      SwallowRest(h, d, s, chunk);
      assert chunk[d.streamLen..] == all[SizeOf(HeadOf(all))..];
      LoopDecodes(h, d.(input := chunk[d.streamLen..], streamLen := 0, cur := NoStream), s);
    }
  }

  // ---- Runs ----

  function ReadAll<S>(h: Handler<S>, d: Parser, s: S, chunks: seq<Bytes>): (r: (Parser, S))
    requires d.Valid()
    decreases chunks
  {
    if chunks == [] then (d, s)
    else
      var (d', s') := Read(h, d, s, chunks[0]);
      ReadAll(h, d', s', chunks[1..])
  }

  /** No read of the run forgets a half-swallowed frame. */
  predicate Remembers<S>(h: Handler<S>, s: S, before: Bytes, chunks: seq<Bytes>)
    decreases chunks
  {
    chunks != [] ==>
      && !Forgets(h, s, before, chunks[0])
      && var (t, rest) := Decode(h, s, before + chunks[0]);
         Remembers(h, t, rest, chunks[1..])
  }

  /**
   Chunk independence: however the bytes of well-formed frames are cut into reads, the session ends as
   after decoding them all at once, and what stays unprocessed is exactly the incomplete last frame.
   */
  lemma {:induction false} ChunkIndependence<S>(h: Handler<S>, d: Parser, s: S, before: Bytes, chunks: seq<Bytes>)
    requires Holds(h, s, d, before) && Tame(h, s, before + Concat(chunks)) && Remembers(h, s, before, chunks)
    ensures var (d', s') := ReadAll(h, d, s, chunks);
            var (t, rest) := Decode(h, s, before + Concat(chunks));
            s' == t && Holds(h, t, d', rest)
    decreases chunks
  {
    if chunks == [] {
      assert before + [] == before;
      HeldIsIncomplete(h, s, d, before);
    } else {
      Assoc(before, chunks[0], Concat(chunks[1..]));
      DecodeInTwo(h, s, before + chunks[0], Concat(chunks[1..]));
      ReadDecodes(h, d, s, before, chunks[0]);
      var (d1, s1) := Read(h, d, s, chunks[0]);
      ChunkIndependence(h, d1, s1, Decode(h, s, before + chunks[0]).1, chunks[1..]);
    }
  }

  // ---- Reads with local calls in between ----

  /** What reaches the parser and the session behind it: a read, or a call that only concerns the session. */
  datatype Input<!S> = Chunk(bytes: Bytes) | Local(call: S -> S)

  function Interleave<S>(h: Handler<S>, d: Parser, s: S, inputs: seq<Input<S>>): (r: (Parser, S))
    requires d.Valid()
    decreases inputs
  {
    if inputs == [] then (d, s)
    else
      match inputs[0]
      case Chunk(bytes) =>
        var (d', s') := Read(h, d, s, bytes);
        Interleave(h, d', s', inputs[1..])
      case Local(call) => Interleave(h, d, call(s), inputs[1..])
  }

  /** The reference: a frame takes effect when its last byte is there, a call where it stands. */
  function Reference<S>(h: Handler<S>, s: S, before: Bytes, inputs: seq<Input<S>>): (r: (S, Bytes))
    decreases inputs
  {
    if inputs == [] then (s, before)
    else
      match inputs[0]
      case Chunk(bytes) =>
        var (t, rest) := Decode(h, s, before + bytes);
        Reference(h, t, rest, inputs[1..])
      case Local(call) => Reference(h, call(s), before, inputs[1..])
  }

  /** The call does not open or close the stream of a frame of which only a part is there. */
  predicate LeavesPending<S>(h: Handler<S>, s: S, s': S, before: Bytes) {
    |before| >= HEADER_SIZE ==> (h.registered(s, HeadOf(before).id) <==> h.registered(s', HeadOf(before).id))
  }

  /** Well-formed frames, none forgotten, and calls that leave the pending frame's stream alone. */
  predicate Orderly<S>(h: Handler<S>, s: S, before: Bytes, inputs: seq<Input<S>>)
    decreases inputs
  {
    inputs == [] ||
    match inputs[0]
    case Chunk(bytes) =>
      && Tame(h, s, before + bytes) && !Forgets(h, s, before, bytes)
      && var (t, rest) := Decode(h, s, before + bytes);
         Orderly(h, t, rest, inputs[1..])
    case Local(call) => LeavesPending(h, s, call(s), before) && Orderly(h, call(s), before, inputs[1..])
  }

  /** Every interleaving of reads and local calls does to the session what the reference does. */
  lemma {:induction false} InterleavedRun<S>(h: Handler<S>, d: Parser, s: S, before: Bytes, inputs: seq<Input<S>>)
    requires Holds(h, s, d, before) && Orderly(h, s, before, inputs)
    ensures var (d', s') := Interleave(h, d, s, inputs);
            var (t, rest) := Reference(h, s, before, inputs);
            s' == t && Holds(h, t, d', rest)
    decreases inputs
  {
    if inputs == [] {
    } else {
      match inputs[0]
      case Chunk(bytes) =>
        ReadDecodes(h, d, s, before, bytes);
        var (d1, s1) := Read(h, d, s, bytes);
        InterleavedRun(h, d1, s1, Decode(h, s, before + bytes).1, inputs[1..]);
      case Local(call) => InterleavedRun(h, d, call(s), before, inputs[1..]);
    }
  }

  lemma FirstChunk<S>(h: Handler<S>, s: S, before: Bytes, bytes: Bytes, more: seq<Input<S>>)
    ensures var (t, rest) := Decode(h, s, before + bytes);
            && Reference(h, s, before, [Chunk(bytes)] + more) == Reference(h, t, rest, more)
            && (Orderly(h, s, before, [Chunk(bytes)] + more) <==>
                Tame(h, s, before + bytes) && !Forgets(h, s, before, bytes) && Orderly(h, t, rest, more))
  {
    var inputs: seq<Input<S>> := [Chunk(bytes)] + more;
    assert inputs[1..] == more;
  }

  lemma FirstLocal<S>(h: Handler<S>, s: S, before: Bytes, call: S -> S, more: seq<Input<S>>)
    ensures Reference(h, s, before, [Local(call)] + more) == Reference(h, call(s), before, more)
    ensures Orderly(h, s, before, [Local(call)] + more) <==>
            LeavesPending(h, s, call(s), before) && Orderly(h, call(s), before, more)
  {
    var inputs: seq<Input<S>> := [Local(call)] + more;
    assert inputs[1..] == more;
  }

  lemma MergedReference<S>(h: Handler<S>, s: S, before: Bytes, a: Bytes, b: Bytes, more: seq<Input<S>>)
    requires Orderly(h, s, before, [Chunk(a)] + ([Chunk(b)] + more))
    ensures Reference(h, s, before, [Chunk(a)] + ([Chunk(b)] + more))
         == Reference(h, s, before, [Chunk(a + b)] + more)
    ensures Orderly(h, s, before, [Chunk(a + b)] + more) <==> !Forgets(h, s, before, a + b)
  {
    Assoc(before, a, b);
    DecodeInTwo(h, s, before + a, b);
    var (t, rest) := Decode(h, s, before + a);
    FirstChunk(h, s, before, a, [Chunk(b)] + more);
    FirstChunk(h, t, rest, b, more);
    FirstChunk(h, s, before, a + b, more);
  }

  /**
   Where a read is cut does not matter, as long as both runs are orderly: two adjacent reads of an orderly run
   can be one, with the same session and the same incomplete frame in hand, and the run stays orderly if and
   only if the joint read does not forget a frame.
   */
  lemma CutIsInvisible<S>(h: Handler<S>, d: Parser, s: S, before: Bytes, a: Bytes, b: Bytes, more: seq<Input<S>>)
    requires Holds(h, s, d, before) && Orderly(h, s, before, [Chunk(a)] + ([Chunk(b)] + more))
    ensures Orderly(h, s, before, [Chunk(a + b)] + more) <==> !Forgets(h, s, before, a + b)
    ensures !Forgets(h, s, before, a + b) ==>
              SameRun(h, d, s, before, [Chunk(a)] + ([Chunk(b)] + more), [Chunk(a + b)] + more)
  {
    MergedReference(h, s, before, a, b, more);
    InterleavedRun(h, d, s, before, [Chunk(a)] + ([Chunk(b)] + more));
    if !Forgets(h, s, before, a + b) {
      InterleavedRun(h, d, s, before, [Chunk(a + b)] + more);
    }
  }

  /** Both runs of the parser end with the same session, holding the same incomplete frame. */
  ghost predicate SameRun<S>(h: Handler<S>, d: Parser, s: S, before: Bytes, one: seq<Input<S>>, two: seq<Input<S>>)
    requires d.Valid()
  {
    var rest := Reference(h, s, before, one).1;
    var (d1, s1) := Interleave(h, d, s, one);
    var (d2, s2) := Interleave(h, d, s, two);
    s1 == s2 && Holds(h, s1, d1, rest) && Holds(h, s2, d2, rest)
  }

  lemma MovedReference<S>(h: Handler<S>, s: S, before: Bytes, a: Bytes, call: S -> S, b: Bytes, more: seq<Input<S>>)
    requires !Complete(before + a) && Orderly(h, s, before, [Chunk(a)] + ([Local(call)] + ([Chunk(b)] + more)))
    ensures Reference(h, s, before, [Chunk(a)] + ([Local(call)] + ([Chunk(b)] + more)))
         == Reference(h, s, before, [Local(call)] + ([Chunk(a + b)] + more))
    ensures Orderly(h, s, before, [Local(call)] + ([Chunk(a + b)] + more)) <==> !Forgets(h, call(s), before, a + b)
  {
    Assoc(before, a, b);
    var s' := call(s);
    FirstChunk(h, s, before, a, [Local(call)] + ([Chunk(b)] + more));
    FirstLocal(h, s, before + a, call, [Chunk(b)] + more);
    FirstChunk(h, s', before + a, b, more);
    FirstLocal(h, s, before, call, [Chunk(a + b)] + more);
    FirstChunk(h, s', before, a + b, more);
    if |before| >= HEADER_SIZE {
      FrontUnchanged(h, s, before, a);
    }
  }

  /**
   Nor does it matter on which side of a call the bytes of a frame come that is not complete at the call,
   under the same condition.
   */
  lemma CallMovesAcross<S>(h: Handler<S>, d: Parser, s: S, before: Bytes, a: Bytes, call: S -> S, b: Bytes,
                           more: seq<Input<S>>)
    requires Holds(h, s, d, before) && !Complete(before + a)
    requires Orderly(h, s, before, [Chunk(a)] + ([Local(call)] + ([Chunk(b)] + more)))
    ensures Orderly(h, s, before, [Local(call)] + ([Chunk(a + b)] + more)) <==> !Forgets(h, call(s), before, a + b)
    ensures !Forgets(h, call(s), before, a + b) ==>
              SameRun(h, d, s, before, [Chunk(a)] + ([Local(call)] + ([Chunk(b)] + more)),
                      [Local(call)] + ([Chunk(a + b)] + more))
  {
    MovedReference(h, s, before, a, call, b, more);
    InterleavedRun(h, d, s, before, [Chunk(a)] + ([Local(call)] + ([Chunk(b)] + more)));
    if !Forgets(h, call(s), before, a + b) {
      InterleavedRun(h, d, s, before, [Local(call)] + ([Chunk(a + b)] + more));
    }
  }

  lemma HeldIsIncomplete<S>(h: Handler<S>, s: S, d: Parser, rest: Bytes)
    requires Holds(h, s, d, rest)
    ensures !Complete(rest)
  {}

  // ---- Where well-formedness is needed ----

  /** A read that starts with a header, at a frame boundary. */
  lemma ReadHeaderFirst<S>(h: Handler<S>, d: Parser, s: S, hdr: Header, more: Bytes)
    requires d.Valid() && d.cur == NoStream && d.partial == [] && d.input == [] && hdr.Fits()
    ensures DecodeHeader(EncodeHeader(hdr)) == hdr
    ensures var d' := d.(header := EncodeHeader(hdr), input := more);
            Read(h, d, s, EncodeHeader(hdr) + more) == Resume(h, AfterHeader(h, d', s, |more|))
  {
    HeaderRoundTrip(hdr);
    var b := EncodeHeader(hdr) + more;
    assert [] + b == b && b[..HEADER_SIZE] == EncodeHeader(hdr) && b[HEADER_SIZE..] == more;
  }

  /** The state of a parser that was left at the header of an empty DATA frame. */
  predicate Wedged(d: Parser) {
    d.Valid() && d.cur.Stream? && d.streamLen == 0 && DecodeHeader(d.header).kind == DATA
  }

  /**
   An empty DATA frame for a registered stream whose header ends a read wedges the connection: whatever
   arrives afterwards, in whatever reads, no frame is ever dispatched again.
   */
  lemma {:induction false} EmptyDataWedges<S>(h: Handler<S>, d: Parser, s: S, hdr: Header, later: seq<Bytes>)
    requires d.Valid() && d.cur == NoStream && d.partial == [] && d.input == []
    requires hdr.Fits() && hdr.Valid() && hdr.kind == DATA && hdr.length == 0 && h.registered(s, hdr.id)
    ensures var (d', s') := Read(h, d, s, EncodeHeader(hdr));
            Wedged(d') && s' == s && ReadAll(h, d', s, later) == (d'.(input := d'.input + Concat(later)), s)
  {
    ReadHeaderFirst(h, d, s, hdr, []);
    assert EncodeHeader(hdr) + [] == EncodeHeader(hdr);
    var d' := Read(h, d, s, EncodeHeader(hdr)).0;
    WedgedForever(h, d', s, later);
  }

  lemma {:induction false} WedgedForever<S>(h: Handler<S>, d: Parser, s: S, later: seq<Bytes>)
    requires Wedged(d)
    ensures ReadAll(h, d, s, later) == (d.(input := d.input + Concat(later)), s)
    decreases later
  {
    if later == [] {
      assert d.input + [] == d.input;
    } else {
      WedgedForever(h, d.(input := d.input + later[0]), s, later[1..]);
      Assoc(d.input, later[0], Concat(later[1..]));
    }
  }

  /** In the middle of a read it only stops the loop: the bytes behind it wait for the next read. */
  lemma EmptyDataStalls<S>(h: Handler<S>, d: Parser, s: S, hdr: Header, more: Bytes)
    requires d.Valid() && d.cur == NoStream && d.partial == [] && d.input == [] && more != []
    requires hdr.Fits() && hdr.Valid() && hdr.kind == DATA && hdr.length == 0 && h.registered(s, hdr.id)
    ensures var (d', s') := Read(h, d, s, EncodeHeader(hdr) + more);
            s' == s && d'.cur == NoStream && d'.partial == [] && d'.input == more
  {
    ReadHeaderFirst(h, d, s, hdr, more);
  }

  /**
   A header with an unknown version or type, or a DATA frame longer than the largest window, only ends the loop:
   the header is gone, nothing is dispatched, and the bytes behind it wait for the next read.
   */
  lemma BadHeaderStops<S>(h: Handler<S>, d: Parser, s: S, hdr: Header, more: Bytes)
    requires d.Valid() && d.cur == NoStream && d.partial == [] && d.input == [] && hdr.Fits()
    requires hdr.version != 0 || hdr.kind > 3 || (hdr.kind == DATA && hdr.length > 8 * 1024 * 1024)
    ensures var (d', s') := Read(h, d, s, EncodeHeader(hdr) + more);
            s' == s && d'.cur == NoStream && d'.partial == [] && d'.input == more
  {
    ReadHeaderFirst(h, d, s, hdr, more);
  }

  /**
   A handler that returns without reading the payload leaves it in the buffer while the loop counts it
   as read: the next read starts by taking that payload for a header.
   */
  lemma UntakenPayloadIsReparsed<S>(h: Handler<S>, d: Parser, s: S, hdr: Header, payload: Bytes, next: Bytes)
    requires d.Valid() && d.cur == NoStream && d.partial == [] && d.input == []
    requires hdr.Fits() && hdr.Valid() && hdr.kind == DATA && 0 < hdr.length == |payload| <= MAX_STREAM_WINDOW
    requires h.registered(s, hdr.id) && !h.data(s, hdr, payload).1
    ensures var (d', s') := Read(h, d, s, EncodeHeader(hdr) + payload);
            && s' == h.data(s, hdr, payload).0
            && Read(h, d', s', next) == Read(h, d'.(input := []), s', payload + next)
            && d'.cur == NoStream && d'.partial == []
  {
    ReadHeaderFirst(h, d, s, hdr, payload);
    assert payload[..|payload|] == payload;
    var d' := d.(header := EncodeHeader(hdr), streamLen := 0, input := payload);
    assert Loop(h, d', h.data(s, hdr, payload).0, 0) == (d', h.data(s, hdr, payload).0);
    assert [] + (payload + next) == payload + next;
  }

  /**
   A payload for an unknown stream of which only a part comes with its header is forgotten: nothing of it is
   remembered, and the bytes of the next read are decoded as fresh frames.
   */
  lemma PayloadForgotten<S>(h: Handler<S>, d: Parser, s: S, hdr: Header, part: Bytes, next: Bytes)
    requires d.Valid() && d.cur == NoStream && d.partial == [] && d.input == []
    requires hdr.Fits() && hdr.Valid() && hdr.kind == DATA && hdr.length <= MAX_STREAM_WINDOW
    requires !h.registered(s, hdr.id) && 0 < |part| < hdr.length
    ensures var (d', s') := Read(h, d, s, EncodeHeader(hdr) + part);
            && s' == s && Holds(h, s, d', [])
            && (Tame(h, s, next) ==> Read(h, d', s, next).1 == Decode(h, s, next).0)
  {
    PartSwallowed(h, d, s, hdr, part);
    var d' := Read(h, d, s, EncodeHeader(hdr) + part).0;
    assert [] + next == next;
    if Tame(h, s, next) {
      ReadDecodes(h, d', s, [], next);
    }
  }

  lemma PartSwallowed<S>(h: Handler<S>, d: Parser, s: S, hdr: Header, part: Bytes)
    requires d.Valid() && d.cur == NoStream && d.partial == [] && d.input == []
    requires hdr.Fits() && hdr.Valid() && hdr.kind == DATA && hdr.length <= MAX_STREAM_WINDOW
    requires !h.registered(s, hdr.id) && 0 < |part| < hdr.length
    ensures Read(h, d, s, EncodeHeader(hdr) + part) ==
            (d.(header := EncodeHeader(hdr), streamLen := hdr.length - |part|), s)
  {
    ReadHeaderFirst(h, d, s, hdr, part);
    assert part[|part|..] == [];
    var d0 := d.(header := EncodeHeader(hdr), input := part);
    var d1 := d.(header := EncodeHeader(hdr), streamLen := hdr.length - |part|);
    assert AfterHeader(h, d0, s, |part|) == Continue(d1, s, 0);
    assert Loop(h, d1, s, 0) == (d1, s);
  }

  /**
   So the tail of such a payload is obeyed: a control frame spelled out in it is dispatched, although all
   of these bytes belong to one DATA frame that is not even complete.
   */
  lemma ForgottenTailIsObeyed<S>(h: Handler<S>, d: Parser, s: S, hdr: Header, part: Bytes, inner: Header)
    requires d.Valid() && d.cur == NoStream && d.partial == [] && d.input == []
    requires hdr.Fits() && hdr.Valid() && hdr.kind == DATA && hdr.length <= MAX_STREAM_WINDOW
    requires !h.registered(s, hdr.id) && 0 < |part| && |part| + HEADER_SIZE < hdr.length
    requires inner.Fits() && inner.Valid() && inner.kind != DATA
    ensures var first, tail := EncodeHeader(hdr) + part, EncodeHeader(inner);
            && ReadAll(h, d, s, [first, tail]).1 == h.control(s, inner)
            && Decode(h, s, first + tail) == (s, first + tail)
  {
    var first, tail := EncodeHeader(hdr) + part, EncodeHeader(inner);
    HeaderRoundTrip(inner);
    assert tail[..HEADER_SIZE] == tail && tail[HEADER_SIZE..] == [];
    assert Tame(h, h.control(s, inner), []);
    PayloadForgotten(h, d, s, hdr, part, tail);
    assert Decode(h, s, tail).0 == h.control(s, inner);
    var (d1, s1) := Read(h, d, s, first);
    assert [first, tail][1..] == [tail] && [tail][1..] == [];
    assert ReadAll(h, d1, s, [tail]) == ReadAll(h, Read(h, d1, s, tail).0, Read(h, d1, s, tail).1, []);
    HeaderRoundTrip(hdr);
    assert (first + tail)[..HEADER_SIZE] == EncodeHeader(hdr);
  }

  /**
   And joining reads can do it: with the header in a read of its own the payload is remembered and the same
   tail is swallowed, so the two cuttings of the same bytes leave different sessions.
   */
  lemma JoiningReadsForgets<S>(h: Handler<S>, d: Parser, s: S, hdr: Header, part: Bytes, inner: Header)
    requires d.Valid() && d.cur == NoStream && d.partial == [] && d.input == []
    requires hdr.Fits() && hdr.Valid() && hdr.kind == DATA && hdr.length <= MAX_STREAM_WINDOW
    requires !h.registered(s, hdr.id) && 0 < |part| && |part| + HEADER_SIZE < hdr.length
    requires inner.Fits() && inner.Valid() && inner.kind != DATA
    ensures ReadAll(h, d, s, [EncodeHeader(hdr), part, EncodeHeader(inner)]).1 == s
    ensures ReadAll(h, d, s, [EncodeHeader(hdr) + part, EncodeHeader(inner)]).1 == h.control(s, inner)
  {
    ForgottenTailIsObeyed(h, d, s, hdr, part, inner);
    TailIsSwallowed(h, d, s, hdr, EncodeHeader(hdr), part, EncodeHeader(inner));
  }

  lemma TailIsSwallowed<S>(h: Handler<S>, d: Parser, s: S, hdr: Header, head: Bytes, part: Bytes, tail: Bytes)
    requires d.Valid() && d.cur == NoStream && d.partial == [] && d.input == []
    requires hdr.Fits() && hdr.Valid() && hdr.kind == DATA && hdr.length <= MAX_STREAM_WINDOW
    requires !h.registered(s, hdr.id) && head == EncodeHeader(hdr)
    requires 0 < |part| && 0 < |tail| && |part| + |tail| < hdr.length
    ensures ReadAll(h, d, s, [head, part, tail]).1 == s
  {
    HeaderAlone(h, d, s, hdr);
    SwallowTwo(h, Read(h, d, s, head).0, s, part, tail);
    ReadThree(h, d, s, head, part, tail);
  }

  lemma SwallowTwo<S>(h: Handler<S>, d: Parser, s: S, a: Bytes, b: Bytes)
    requires d.Valid() && d.cur.Abandoned? && d.input == [] && DecodeHeader(d.header).kind == DATA
    requires 0 < |a| && 0 < |b| && |a| + |b| < d.streamLen
    ensures var (d1, s1) := Read(h, d, s, a); Read(h, d1, s1, b).1 == s
  {
    SwallowPart(h, d, s, a);
    SwallowPart(h, d.(streamLen := d.streamLen - |a|), s, b);
  }

  /** A header for an unknown stream that ends its read is remembered. */
  lemma HeaderAlone<S>(h: Handler<S>, d: Parser, s: S, hdr: Header)
    requires d.Valid() && d.cur == NoStream && d.partial == [] && d.input == []
    requires hdr.Fits() && hdr.Valid() && hdr.kind == DATA && 0 < hdr.length <= MAX_STREAM_WINDOW
    requires !h.registered(s, hdr.id)
    ensures DecodeHeader(EncodeHeader(hdr)) == hdr
    ensures Read(h, d, s, EncodeHeader(hdr)) ==
            (d.(header := EncodeHeader(hdr), streamLen := hdr.length, cur := Abandoned), s)
  {
    ReadHeaderFirst(h, d, s, hdr, []);
    assert EncodeHeader(hdr) + [] == EncodeHeader(hdr);
  }

  lemma ReadThree<S>(h: Handler<S>, d: Parser, s: S, a: Bytes, b: Bytes, c: Bytes)
    requires d.Valid()
    ensures var (d1, s1) := Read(h, d, s, a);
            var (d2, s2) := Read(h, d1, s1, b);
            ReadAll(h, d, s, [a, b, c]) == Read(h, d2, s2, c)
  {
    var two, one: seq<Bytes> := [b, c], [c];
    assert [a, b, c][1..] == two && two[1..] == one && one[1..] == [];
    var (d1, s1) := Read(h, d, s, a);
    var (d2, s2) := Read(h, d1, s1, b);
    var (d3, s3) := Read(h, d2, s2, c);
    assert ReadAll(h, d3, s3, []) == (d3, s3);
    assert ReadAll(h, d2, s2, one) == (d3, s3);
    assert ReadAll(h, d1, s1, two) == (d3, s3);
  }

  // ---- The stateful parser ----

  class Demultiplexer<S> {
    var partial: Bytes
    var header: Bytes
    var cur: Cur
    var streamLen: nat
    var input: Bytes
    var session: S

    ghost function View(): Parser
      reads this
    {
      Parser(partial, header, cur, streamLen, input)
    }

    constructor (s: S)
      ensures View() == Fresh() && session == s
    {
      partial, header, cur, streamLen, input := [], EncodeHeader(Header(0, 0, 0, 0, 0)), NoStream, 0, [];
      session := s;
    }

    /** `bufferevent_read`: at most `n` bytes off the front of the input. */
    method TakeInput(n: nat) returns (got: Bytes)
      modifies this`input
      ensures got == old(input)[..Min(n, |old(input)|)] && input == old(input)[Min(n, |old(input)|)..]
    {
      var k := Min(n, |input|);
      got, input := input[..k], input[k..];
    }

    method GatherHeader(len: nat) returns (left: nat, complete: bool)
      requires InLoop(View(), len) && len > 0 && cur == NoStream
      modifies this`partial, this`header, this`input
      ensures (View(), left, complete) == Gather(old(View()), len)
    {
      if partial != [] {
        var got := TakeInput(HEADER_SIZE - |partial|);
        partial := partial + got;
        left := len - |got|;
        if |partial| < HEADER_SIZE {
          return left, false;
        }
        header, partial := partial, [];
        return left, true;
      }
      if len < HEADER_SIZE {
        partial := TakeInput(len);
        return 0, false;
      }
      header := TakeInput(HEADER_SIZE);
      return len - HEADER_SIZE, true;
    }

    /** The payload half of a turn. */
    method HandlePayload(h: Handler<S>, len: nat, local: Cur) returns (left: nat, go: bool)
      requires View().Valid() && partial == [] && len <= |input|
      modifies this
      ensures Payload(h, old(View()), old(session), len, local) ==
              if go then Continue(View(), session, left) else Break(View(), session)
    {
      var hdr := DecodeHeader(header);
      if hdr.kind == DATA && streamLen > 0 {
        var toRead := Min(len, streamLen);
        if local == Abandoned {
          input := input[toRead..];
          streamLen := streamLen - toRead;
          if streamLen == 0 {
            cur := NoStream;
          }
          return len - toRead, true;
        }
        if toRead < streamLen {
          cur := local;
          return len, false;
        }
        var (s, taken) := h.data(session, hdr, input[..streamLen]);
        session := s;
        if taken {
          input := input[streamLen..];
        }
        left, streamLen, cur := len - streamLen, 0, NoStream;
        return left, true;
      } else if hdr.kind == WINDOW_UPDATE || hdr.kind == PING || hdr.kind == GO_AWAY {
        session := h.control(session, hdr);
        cur := NoStream;
        return len, true;
      }
      return len, false;
    }

    /** The header half of a turn; `None` means that the loop ends or goes on without a payload half. */
    method BeginFrame(h: Handler<S>, len: nat) returns (left: nat, go: bool, local: Option<Cur>)
      requires InLoop(View(), len) && len > 0 && cur == NoStream
      modifies this
      ensures session == old(session) && View().Valid()
      ensures match local
              case None =>
                OneTurn(h, old(View()), session, len) ==
                if go then Continue(View(), session, left) else Break(View(), session)
              case Some(c) =>
                && partial == [] && left <= |input| && go
                && OneTurn(h, old(View()), session, len) == Payload(h, View(), session, left, c)
    {
      local := None;
      left, go := GatherHeader(len);
      if !go {
        return;
      }
      var hdr := DecodeHeader(header);
      if !hdr.Valid() {
        return left, false, None;
      }
      if hdr.kind != DATA {
        return left, true, Some(NoStream);
      }
      streamLen := hdr.length;
      if streamLen > MAX_STREAM_WINDOW {
        return left, false, None;
      }
      var c := NoStream;
      if h.registered(session, hdr.id) {
        c := Stream(hdr.id);
      } else if streamLen > 0 {
        c := Abandoned;
      } else {
        return left, true, None;
      }
      if left == 0 {
        cur := c;
        return left, false, None;
      }
      return left, true, Some(c);
    }

    method HandleTcpMux(h: Handler<S>, length: nat)
      requires InLoop(View(), length)
      modifies this
      ensures (View(), session) == Loop(h, old(View()), old(session), length)
    {
      var len := length;
      ghost var goal := Loop(h, View(), session, len);
      while len > 0
        invariant InLoop(View(), len) && Loop(h, View(), session, len) == goal
        decreases len, cur != NoStream
      {
        var go, local := true, Some(cur);
        if cur == NoStream {
          len, go, local := BeginFrame(h, len);
        }
        if local.Some? {
          len, go := HandlePayload(h, len, local.value);
        }
        if !go {
          return;
        }
      }
    }

    method Receive(h: Handler<S>, chunk: Bytes)
      requires View().Valid()
      modifies this
      ensures (View(), session) == Read(h, old(View()), old(session), chunk)
    {
      input := input + chunk;
      if |input| > 0 {
        HandleTcpMux(h, |input|);
      }
    }
  }
}
