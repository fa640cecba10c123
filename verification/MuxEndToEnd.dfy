/** The multiplexer's output bytes, read by a demultiplexer in any chunks. */
module MuxEndToEnd {
  import opened Bytes
  import opened MuxFrames
  import opened TcpMux
  import opened TcpMuxSafety
  import D = Demux

  function HeaderOf(f: Frame): Header {
    Header(0, f.kind, FlagBits(f.flags), f.id, f.length)
  }

  /** `tcp_mux_encode` and the payload behind it. */
  function Wire(f: Frame): Bytes {
    EncodeHeader(HeaderOf(f)) + f.payload
  }

  function WireAll(out: seq<Frame>): Bytes {
    if out == [] then [] else Wire(out[0]) + WireAll(out[1..])
  }

  /** A frame that a receiver accepts. */
  predicate Readable(f: Frame) {
    && f.kind <= GO_AWAY && f.id < TWO_32 && f.length < TWO_32
    && if f.kind == DATA then 1 <= f.length == |f.payload| <= MAX_STREAM_WINDOW else f.payload == []
  }

  predicate AllReadable(out: seq<Frame>) {
    forall i :: 0 <= i < |out| ==> Readable(out[i])
  }

  // ---- A receiver that knows every stream and reads every payload ----

  ghost predicate TakesAll<S(!new)>(h: D.Handler<S>) {
    && (forall s: S, id: nat :: h.registered(s, id))
    && (forall s: S, hdr: Header, p: Bytes :: h.data(s, hdr, p).1)
  }

  function ApplyFrame<S>(h: D.Handler<S>, s: S, f: Frame): S {
    if f.kind == DATA then h.data(s, HeaderOf(f), f.payload).0 else h.control(s, HeaderOf(f))
  }

  /** What the frames do to the session, one after another. */
  function ApplyAll<S>(h: D.Handler<S>, s: S, out: seq<Frame>): S
    decreases out
  {
    if out == [] then s else ApplyAll(h, ApplyFrame(h, s, out[0]), out[1..])
  }

  /** One frame off the front. */
  lemma FrontFrame<S(!new)>(h: D.Handler<S>, s: S, f: Frame, rest: Bytes)
    requires Readable(f) && TakesAll(h)
    ensures var b := Wire(f) + rest;
            && D.Complete(b) && D.SizeOf(D.HeadOf(b)) == |Wire(f)| && b[|Wire(f)|..] == rest
            && D.HeadOf(b) == HeaderOf(f)
            && D.GoodHeader(h, s, HeaderOf(f))
            && D.Apply(h, s, b) == ApplyFrame(h, s, f)
  {
    var hdr := HeaderOf(f);
    FlagsRoundTrip(f.flags);
    HeaderRoundTrip(hdr);
    var b := Wire(f) + rest;
    assert b[..HEADER_SIZE] == EncodeHeader(hdr);
    assert b[HEADER_SIZE..|Wire(f)|] == f.payload;
    assert b[|Wire(f)|..] == rest;
  }

  lemma DecodeFront<S(!new)>(h: D.Handler<S>, s: S, f: Frame, rest: Bytes)
    requires Readable(f) && TakesAll(h)
    ensures D.Decode(h, s, Wire(f) + rest) == D.Decode(h, ApplyFrame(h, s, f), rest)
    ensures D.Tame(h, ApplyFrame(h, s, f), rest) ==> D.Tame(h, s, Wire(f) + rest)
  {
    FrontFrame(h, s, f, rest);
  }

  lemma {:induction false} DecodeWire<S(!new)>(h: D.Handler<S>, s: S, out: seq<Frame>)
    requires AllReadable(out) && TakesAll(h)
    ensures D.Decode(h, s, WireAll(out)) == (ApplyAll(h, s, out), [])
    ensures D.Tame(h, s, WireAll(out))
    decreases out
  {
    if out == [] {
    } else {
      var f, rest := out[0], WireAll(out[1..]);
      assert AllReadable(out[1..]);
      DecodeWire(h, ApplyFrame(h, s, f), out[1..]);
      DecodeFront(h, s, f, rest);
      assert WireAll(out) == Wire(f) + rest;
    }
  }

  lemma {:induction false} NothingForgotten<S(!new)>(h: D.Handler<S>, s: S, before: Bytes, chunks: seq<Bytes>)
    requires TakesAll(h)
    ensures D.Remembers(h, s, before, chunks)
    decreases chunks
  {
    if chunks == [] {
    } else {
      var (t, rest) := D.Decode(h, s, before + chunks[0]);
      NothingForgotten(h, t, rest, chunks[1..]);
    }
  }

  /** However the bytes of the frames are cut into reads, the session behind the parser is given each in order. */
  lemma WireApplies<S(!new)>(h: D.Handler<S>, s: S, out: seq<Frame>, chunks: seq<Bytes>)
    requires TakesAll(h) && AllReadable(out) && Concat(chunks) == WireAll(out)
    ensures var (d, t) := D.ReadAll(h, D.Fresh(), s, chunks);
            t == ApplyAll(h, s, out) && D.Holds(h, t, d, [])
  {
    DecodeWire(h, s, out);
    NothingForgotten(h, s, [], chunks);
    assert [] + Concat(chunks) == WireAll(out);
    D.ChunkIndependence(h, D.Fresh(), s, [], chunks);
  }

  /** A peer that notes what it is given. */
  function Recorder(): D.Handler<seq<Frame>> {
    D.Handler((s: seq<Frame>, id: nat) => true,
              (s: seq<Frame>, h: Header, p: Bytes) => (s + [Frame(h.kind, FlagsOf(h.flags), h.id, h.length, p)], true),
              (s: seq<Frame>, h: Header) => s + [Frame(h.kind, FlagsOf(h.flags), h.id, h.length, [])])
  }

  lemma {:induction false} Recorded(s: seq<Frame>, out: seq<Frame>)
    requires AllReadable(out)
    ensures ApplyAll(Recorder(), s, out) == s + out
    decreases out
  {
    if out == [] {
      assert s + out == s;
    } else {
      FlagsRoundTrip(out[0].flags);
      assert ApplyFrame(Recorder(), s, out[0]) == s + [out[0]];
      assert AllReadable(out[1..]);
      Recorded(s + [out[0]], out[1..]);
      assert s + [out[0]] + out[1..] == s + out;
    }
  }

  /** However the output is cut into reads, the peer is given exactly the frames written, in order. */
  lemma WireRoundTrip(out: seq<Frame>, chunks: seq<Bytes>)
    requires AllReadable(out) && Concat(chunks) == WireAll(out)
    ensures var (d, got) := D.ReadAll(Recorder(), D.Fresh(), [], chunks);
            got == out && D.Holds(Recorder(), got, d, [])
  {
    WireApplies(Recorder(), [], out, chunks);
    Recorded([], out);
    assert [] + out == out;
  }

  /**
   Isolation and order, end to end: for every run of the sending session, with any interleaving of writes
   on any number of streams, and every way of cutting its output into reads, what the peer is given on a
   stream is exactly what was taken from that stream's sources, in order, in frames of 1 to 256 KiB.
   */
  lemma EndToEnd(es: seq<Event>, chunks: seq<Bytes>, id: nat)
    requires Runs(Start(), es) && id != 0
    requires Concat(chunks) == WireAll(Run(Start(), es).out)
    ensures var got := D.ReadAll(Recorder(), D.Fresh(), [], chunks).1;
            && SentPayload(got, id) == TotalTaken(Start(), es, id)
            && forall i :: 0 <= i < |got| && got[i].kind == DATA ==> 1 <= |got[i].payload| <= MAX_FRAME
  {
    OutOkRun(Start(), es);
    AccountRun(Start(), es, id);
    WireRoundTrip(Run(Start(), es).out, chunks);
    assert [] + TotalTaken(Start(), es, id) == TotalTaken(Start(), es, id);
  }

  // ---- The session itself behind the demultiplexer ----

  /** What comes from this side: everything but frames. */
  predicate IsCall(e: Event) {
    !(e.EvData? || e.EvFlags? || e.EvWindow? || e.EvPing?)
  }

  /** A call that is not possible is not made. */
  function Attempt(s: Session, e: Event): Session {
    if IsCall(e) && Enabled(s, e) then Step(s, e) else s
  }

  function Attempts(s: Session, calls: seq<Event>): Session
    decreases calls
  {
    if calls == [] then s else Attempts(Attempt(s, calls[0]), calls[1..])
  }

  /** The calls that are made. */
  function Made(s: Session, calls: seq<Event>): seq<Event>
    decreases calls
  {
    if calls == [] then []
    else (if IsCall(calls[0]) && Enabled(s, calls[0]) then [calls[0]] else []) + Made(Attempt(s, calls[0]), calls[1..])
  }

  /** The calls that a payload sets off: streams opened for a control message, replies, a local connection. */
  type Reaction = (Session, Header, Bytes) -> seq<Event>

  predicate Knows(s: Session, id: nat) {
    id in s.registered && id in s.streams
  }

  /** `process_data` up to the choice of a handler: the session with the flags applied, or that it ends there. */
  function Admit(s: Session, hdr: Header, n: nat): (r: (Session, bool))
    requires Knows(s, hdr.id)
    ensures r.1 ==> Knows(r.0, hdr.id)
  {
    var (s1, ok) := ApplyFlags(s, hdr.id, FlagsOf(hdr.flags));
    (s1, ok && hdr.id in s1.registered && n <= s1.streams[hdr.id].recvWindow)
  }

  /** The calls of the payload's handler; the handler of a severed client returns at once. */
  function CallsOf(react: Reaction, s: Session, hdr: Header, p: Bytes): seq<Event> {
    if IsSevered(s, hdr.id) then [] else react(s, hdr, p)
  }

  /** A whole DATA frame: flags, the calls its payload sets off, the credit; and whether the payload was read. */
  function ReceiveFrame(react: Reaction, s: Session, hdr: Header, p: Bytes): (Session, bool)
    requires Knows(s, hdr.id)
  {
    var (s1, admitted) := Admit(s, hdr, |p|);
    if !admitted then (s1, false)
    else
      var s2 := Attempts(s1, CallsOf(react, s1, hdr, p));
      var s3 := if Knows(s2, hdr.id) then ReceiveData(s2, hdr.id, ZERO, |p|, false).0 else s2;
      (s3, !IsSevered(s1, hdr.id) || p == [])
  }

  /** `handle_tcp_mux` dispatching into this session; every local transfer is whole. */
  function SessionHandler(react: Reaction): D.Handler<Session> {
    D.Handler((s: Session, id: nat) => Knows(s, id),
              (s: Session, h: Header, p: Bytes) => if Knows(s, h.id) then ReceiveFrame(react, s, h, p) else (s, true),
              (s: Session, h: Header) =>
                if h.kind == WINDOW_UPDATE then ReceiveWindowUpdate(s, h.id, FlagsOf(h.flags), h.length)
                else if h.kind == PING then AnswerPing(s, FlagsOf(h.flags), h.length)
                else s)
  }

  /** Flags that are none change nothing. */
  lemma NoFlags(s: Session, id: nat)
    requires id in s.streams
    ensures ApplyFlags(s, id, ZERO) == (s, true)
  {
    assert s.streams[id := s.streams[id]] == s.streams;
  }

  /** Without calls a frame is one call of `process_data`. */
  lemma QuietFrame(react: Reaction, s: Session, hdr: Header, p: Bytes)
    requires Tables(s) && Knows(s, hdr.id) && forall s1 :: react(s1, hdr, p) == []
    ensures var (s', taken) := ReceiveData(s, hdr.id, FlagsOf(hdr.flags), |p|, false);
            ReceiveFrame(react, s, hdr, p) == (s', taken == All)
  {
    var (s1, admitted) := Admit(s, hdr, |p|);
    if admitted {
      NoFlags(s1, hdr.id);
      assert CallsOf(react, s1, hdr, p) == [];
    }
  }

  /** A control frame on the wire is what the session is told: an update, or a PING that is answered. */
  lemma ControlArrives(react: Reaction, d: D.Parser, s: Session, hdr: Header)
    requires d.Valid() && d.cur == D.NoStream && d.partial == [] && d.input == [] && hdr.Fits() && hdr.version == 0
    ensures var s' := D.Read(SessionHandler(react), d, s, EncodeHeader(hdr)).1;
            && (hdr.kind == 1 ==> s' == ReceiveWindowUpdate(s, hdr.id, FlagsOf(hdr.flags), hdr.length))
            && (hdr.kind == 2 ==>
                  s'.out == s.out + if FlagsOf(hdr.flags).syn then [Frame(PING, ACK, 0, hdr.length, [])] else [])
            && (hdr.kind == 3 ==> s' == s)
  {
    var h := SessionHandler(react);
    D.ReadHeaderFirst(h, d, s, hdr, []);
    assert EncodeHeader(hdr) + [] == EncodeHeader(hdr);
  }

  /** A call that a payload sets off is made after the frame's flags and before its credit. */
  lemma CallIsMade(react: Reaction, s: Session, hdr: Header, p: Bytes, e: Event)
    requires Tables(s) && Knows(s, hdr.id) && Admit(s, hdr, |p|).1 && !IsSevered(s, hdr.id)
    requires var s1 := Admit(s, hdr, |p|).0;
             && react(s1, hdr, p) == [e] && IsCall(e) && Enabled(s1, e) && Knows(Step(s1, e), hdr.id)
    ensures var s1 := ApplyFlags(s, hdr.id, FlagsOf(hdr.flags)).0;
            && ReceiveFrame(react, s, hdr, p).0 == ReceiveData(Step(s1, e), hdr.id, ZERO, |p|, false).0
            && Made(s1, [e]) == [e]
  {
    TablesFlags(s, hdr.id, FlagsOf(hdr.flags));
    var s1 := Admit(s, hdr, |p|).0;
    assert [e][1..] == [] && Attempts(Attempt(s1, e), []) == Attempt(s1, e);
    assert Made(Attempt(s1, e), []) == [] && [e] + [] == [e];
  }

  /**
   A DATA payload is taken off the connection if and only if its flags neither kill the stream nor are
   refused, it fits the receive window, and it is not for a SOCKS5 client whose local connection is gone.
   Otherwise its bytes stay in the buffer.
   */
  lemma PayloadTakenIff(react: Reaction, s: Session, hdr: Header, p: Bytes)
    requires Tables(s) && hdr.id in s.registered && p != []
    ensures var f := FlagsOf(hdr.flags);
            SessionHandler(react).data(s, hdr, p).1 <==>
            && !f.rst
            && !(f.fin && s.streams[hdr.id].state in {Init, LocalClose, RemoteClose})
            && |p| <= s.streams[hdr.id].recvWindow
            && !IsSevered(s, hdr.id)
  {
    TablesFlags(s, hdr.id, FlagsOf(hdr.flags));
  }

  /** A hang-up leaves the stream in the table unless it was half closed and there is window for the second FIN. */
  lemma HungUpStays(s: Session, id: nat)
    requires Tables(s) && id in s.clients
    ensures id in Disconnect(s, id).registered <==>
            s.streams[id].sendWindow == 0 || s.streams[id].state !in {LocalClose, RemoteClose}
  {}

  /**
   So when the local side of a forwarding SOCKS5 client hangs up, an ordinary DATA frame that is still under
   way throws the parser out of step: its payload is taken for read, and the next read decodes it as frames.
   */
  lemma HangUpLosesStep(react: Reaction, d: D.Parser, s: Session, hdr: Header, payload: Bytes, next: Bytes)
    requires d.Valid() && d.cur == D.NoStream && d.partial == [] && d.input == []
    requires Tables(s) && hdr.id in s.clients && s.clients[hdr.id].local == Forwarding
    requires s.streams[hdr.id].sendWindow == 0 || s.streams[hdr.id].state !in {LocalClose, RemoteClose}
    requires hdr.Fits() && hdr.Valid() && hdr.kind == DATA && FlagsOf(hdr.flags) == ZERO
    requires 0 < hdr.length == |payload| <= s.streams[hdr.id].recvWindow
    ensures var h := SessionHandler(react);
            var u := Disconnect(s, hdr.id);
            var (d', s') := D.Read(h, d, u, EncodeHeader(hdr) + payload);
            && s' == h.data(u, hdr, payload).0
            && D.Read(h, d', s', next) == D.Read(h, d'.(input := []), s', payload + next)
            && (D.Tame(h, s', payload + next) ==>
                  D.Read(h, d', s', next).1 == D.Decode(h, s', payload + next).0)
  {
    var h, u := SessionHandler(react), Disconnect(s, hdr.id);
    TablesStep(s, EvDisconnect(hdr.id));
    HungUpStays(s, hdr.id);
    SeveredByHangUp(s, hdr.id);
    PayloadTakenIff(react, u, hdr, payload);
    D.UntakenPayloadIsReparsed(h, d, u, hdr, payload, next);
    var (d', s') := D.Read(h, d, u, EncodeHeader(hdr) + payload);
    if D.Tame(h, s', payload + next) {
      assert [] + (payload + next) == payload + next;
      D.ReadDecodes(h, d'.(input := []), s', [], payload + next);
    }
  }

  /** A SOCKS5 client that has begun to forward is severed by a hang-up; one that has not is not. */
  lemma EstablishedThenHungUp(s: Session, id: nat)
    requires Tables(s) && id in s.clients && s.clients[id].local == Ordinary
    requires s.streams[id].sendWindow == 0 || s.streams[id].state !in {LocalClose, RemoteClose}
    ensures var s1 := Step(s, EvEstablish(id));
            && id in s1.clients && s1.clients[id].local == Forwarding && s1.streams == s.streams
            && IsSevered(Disconnect(s1, id), id) && !IsSevered(Disconnect(s, id), id)
  {
    var s1 := Step(s, EvEstablish(id));
    TablesStep(s, EvEstablish(id));
    HungUpStays(s1, id);
    SeveredByHangUp(s1, id);
  }

  lemma SeveredByHangUp(s: Session, id: nat)
    requires Tables(s) && id in s.clients && s.clients[id].local == Forwarding
    requires id in Disconnect(s, id).registered
    ensures IsSevered(Disconnect(s, id), id) && id in Disconnect(s, id).streams
    ensures Disconnect(s, id).streams[id].recvWindow == s.streams[id].recvWindow
  {}

  /** The session after any run of reads is the session after one read, while the frames are tame. */
  lemma SessionChunkIndependent(react: Reaction, s: Session, chunks: seq<Bytes>)
    requires D.Tame(SessionHandler(react), s, Concat(chunks)) && D.Remembers(SessionHandler(react), s, [], chunks)
    ensures D.ReadAll(SessionHandler(react), D.Fresh(), s, chunks).1
         == D.Read(SessionHandler(react), D.Fresh(), s, Concat(chunks)).1
  {
    var h, all := SessionHandler(react), Concat(chunks);
    assert [] + all == all;
    D.ChunkIndependence(h, D.Fresh(), s, [], chunks);
    D.ReadDecodes(h, D.Fresh(), s, [], all);
  }

  // ---- Bytes from the connection and local calls, in any order ----

  /** What happens to a session: a read on its connection, or a call from this side. */
  datatype Arrival = Received(bytes: Bytes) | Called(event: Event)

  function Inputs(arrivals: seq<Arrival>): seq<D.Input<Session>> {
    if arrivals == [] then []
    else
      var first := match arrivals[0]
                   case Received(bytes) => D.Chunk(bytes)
                   case Called(e) => D.Local((s: Session) => Attempt(s, e));
      [first] + Inputs(arrivals[1..])
  }

  /** The steps that a DATA frame for a known stream amounts to. */
  function DataSteps(react: Reaction, s: Session, hdr: Header, p: Bytes): seq<Event>
    requires Knows(s, hdr.id)
  {
    var (s1, admitted) := Admit(s, hdr, |p|);
    [EvFlags(hdr.id, FlagsOf(hdr.flags))] +
    if !admitted then []
    else
      var calls := CallsOf(react, s1, hdr, p);
      Made(s1, calls) + if Knows(Attempts(s1, calls), hdr.id) then [EvData(hdr.id, ZERO, |p|, false)] else []
  }

  /** The steps that the frame at the front amounts to; GO_AWAY and DATA for unknown streams are none. */
  function StepsAt(react: Reaction, s: Session, b: Bytes): seq<Event>
    requires D.Complete(b)
  {
    var hdr := D.HeadOf(b);
    var f := FlagsOf(hdr.flags);
    if hdr.kind == DATA then
      if Knows(s, hdr.id) then DataSteps(react, s, hdr, b[HEADER_SIZE..D.SizeOf(hdr)]) else []
    else if hdr.kind == WINDOW_UPDATE then [EvWindow(hdr.id, f, hdr.length)]
    else if hdr.kind == PING then [EvPing(f, hdr.length)]
    else []
  }

  function StepsIn(react: Reaction, s: Session, b: Bytes): seq<Event>
    decreases |b|
  {
    if !D.Complete(b) then []
    else
      StepsAt(react, s, b) +
      StepsIn(react, D.Apply(SessionHandler(react), s, b), b[D.SizeOf(D.HeadOf(b))..])
  }

  /** All steps of the session: frames in the order of the bytes, calls where they were made. */
  function StepsOf(react: Reaction, s: Session, before: Bytes, arrivals: seq<Arrival>): seq<Event>
    decreases arrivals
  {
    if arrivals == [] then []
    else
      match arrivals[0]
      case Received(bytes) =>
        var (t, rest) := D.Decode(SessionHandler(react), s, before + bytes);
        StepsIn(react, s, before + bytes) + StepsOf(react, t, rest, arrivals[1..])
      case Called(e) => Made(s, [e]) + StepsOf(react, Attempt(s, e), before, arrivals[1..])
  }

  lemma {:induction false} RunInTwo(s: Session, a: seq<Event>, b: seq<Event>)
    requires Runs(s, a) && Runs(Run(s, a), b)
    ensures Runs(s, a + b) && Run(s, a + b) == Run(Run(s, a), b)
    decreases a
  {
    if a == [] {
      assert a + b == b;
    } else {
      assert (a + b)[1..] == a[1..] + b;
      RunInTwo(Step(s, a[0]), a[1..], b);
    }
  }

  lemma RunOne(s: Session, e: Event)
    requires Enabled(s, e)
    ensures Runs(s, [e]) && Run(s, [e]) == Step(s, e)
  {
    assert [e][1..] == [];
    assert Runs(Step(s, e), []) && Run(Step(s, e), []) == Step(s, e);
  }

  lemma {:induction false} CallsAreRun(s: Session, calls: seq<Event>)
    ensures Runs(s, Made(s, calls)) && Run(s, Made(s, calls)) == Attempts(s, calls)
    decreases calls
  {
    if calls == [] {
    } else {
      var e, s1 := calls[0], Attempt(s, calls[0]);
      var first := if IsCall(e) && Enabled(s, e) then [e] else [];
      if first != [] {
        RunOne(s, e);
      }
      CallsAreRun(s1, calls[1..]);
      RunInTwo(s, first, Made(s1, calls[1..]));
    }
  }

  lemma DataIsRun(react: Reaction, s: Session, hdr: Header, p: Bytes)
    requires Knows(s, hdr.id)
    ensures var es := DataSteps(react, s, hdr, p);
            Runs(s, es) && Run(s, es) == ReceiveFrame(react, s, hdr, p).0
  {
    var (s1, admitted) := Admit(s, hdr, |p|);
    var flags := [EvFlags(hdr.id, FlagsOf(hdr.flags))];
    RunOne(s, flags[0]);
    if admitted {
      var calls := CallsOf(react, s1, hdr, p);
      var s2 := Attempts(s1, calls);
      var last := if Knows(s2, hdr.id) then [EvData(hdr.id, ZERO, |p|, false)] else [];
      if last != [] {
        RunOne(s2, last[0]);
      }
      CallsAreRun(s1, calls);
      RunInTwo(s1, Made(s1, calls), last);
      RunInTwo(s, flags, Made(s1, calls) + last);
    } else {
      assert flags + [] == flags;
    }
  }

  /** Dispatching a frame is taking its steps. */
  lemma ApplyIsRun(react: Reaction, s: Session, b: Bytes)
    requires D.Complete(b)
    ensures Runs(s, StepsAt(react, s, b)) && Run(s, StepsAt(react, s, b)) == D.Apply(SessionHandler(react), s, b)
  {
    var hdr := D.HeadOf(b);
    if hdr.kind == DATA {
      if Knows(s, hdr.id) {
        DataIsRun(react, s, hdr, b[HEADER_SIZE..D.SizeOf(hdr)]);
      }
    } else if hdr.kind == WINDOW_UPDATE || hdr.kind == PING {
      RunOne(s, StepsAt(react, s, b)[0]);
    }
  }

  lemma {:induction false} DecodeIsRun(react: Reaction, s: Session, b: Bytes)
    ensures Runs(s, StepsIn(react, s, b)) && Run(s, StepsIn(react, s, b)) == D.Decode(SessionHandler(react), s, b).0
    decreases |b|
  {
    if !D.Complete(b) {
    } else {
      var t, rest := D.Apply(SessionHandler(react), s, b), b[D.SizeOf(D.HeadOf(b))..];
      ApplyIsRun(react, s, b);
      DecodeIsRun(react, t, rest);
      RunInTwo(s, StepsAt(react, s, b), StepsIn(react, t, rest));
    }
  }

  lemma {:induction false} ReferenceIsRun(react: Reaction, s: Session, before: Bytes, arrivals: seq<Arrival>)
    ensures var es := StepsOf(react, s, before, arrivals);
            Runs(s, es) && Run(s, es) == D.Reference(SessionHandler(react), s, before, Inputs(arrivals)).0
    decreases arrivals
  {
    if arrivals == [] {
    } else {
      assert Inputs(arrivals)[1..] == Inputs(arrivals[1..]);
      match arrivals[0]
      case Received(bytes) =>
        var (t, rest) := D.Decode(SessionHandler(react), s, before + bytes);
        DecodeIsRun(react, s, before + bytes);
        ReferenceIsRun(react, t, rest, arrivals[1..]);
        RunInTwo(s, StepsIn(react, s, before + bytes), StepsOf(react, t, rest, arrivals[1..]));
      case Called(e) =>
        CallsAreRun(s, [e]);
        assert [e][1..] == [] && Attempts(Attempt(s, e), []) == Attempt(s, e);
        ReferenceIsRun(react, Attempt(s, e), before, arrivals[1..]);
        RunInTwo(s, Made(s, [e]), StepsOf(react, Attempt(s, e), before, arrivals[1..]));
    }
  }

  /**
   The connection's bytes, cut in any way, with any calls in between and any calls set off by the payloads,
   take the session through a run of the step system, in which the frames come in the order of their bytes.
   */
  lemma BytesAreSteps(react: Reaction, d: D.Parser, s: Session, before: Bytes, arrivals: seq<Arrival>)
    requires D.Holds(SessionHandler(react), s, d, before)
    requires D.Orderly(SessionHandler(react), s, before, Inputs(arrivals))
    ensures var es := StepsOf(react, s, before, arrivals);
            Runs(s, es) && D.Interleave(SessionHandler(react), d, s, Inputs(arrivals)).1 == Run(s, es)
  {
    D.InterleavedRun(SessionHandler(react), d, s, before, Inputs(arrivals));
    ReferenceIsRun(react, s, before, arrivals);
  }

  /** No DATA on a stream behind its FIN or RST. */
  predicate EndsQuietly(out: seq<Frame>) {
    forall i, j :: 0 <= i < j < |out| && out[i].id == out[j].id != 0 && (out[i].flags.fin || out[i].flags.rst) ==>
                     out[j].kind != DATA
  }

  /** So what is proved of all runs holds at the level of bytes: tables, lifecycle and flow control. */
  lemma ByteLevelSafety(react: Reaction, arrivals: seq<Arrival>)
    requires D.Orderly(SessionHandler(react), Start(), [], Inputs(arrivals))
    ensures var s := D.Interleave(SessionHandler(react), D.Fresh(), Start(), Inputs(arrivals)).1;
            var es := StepsOf(react, Start(), [], arrivals);
            && Runs(Start(), es) && Tables(s) && EndsQuietly(s.out)
            && forall id :: id in s.streams ==>
                 && SentBytes(s.out, id) + s.streams[id].sendWindow
                    == INITIAL_WINDOW + TotalCredited(Start(), es, id)
                 && SentBytes(s.out, id) <= INITIAL_WINDOW + TotalAccepted(Start(), es, id)
                 && s.streams[id].sendWindow <= MAX_YAMUX_WINDOW
  {
    BytesAreSteps(react, D.Fresh(), Start(), [], arrivals);
    var es := StepsOf(react, Start(), [], arrivals);
    var s := Run(Start(), es);
    TablesRun(Start(), es);
    forall i, j | 0 <= i < j < |s.out| && s.out[i].id == s.out[j].id != 0 && (s.out[i].flags.fin || s.out[i].flags.rst)
      ensures s.out[j].kind != DATA
    {
      NoDataAfterEnd(es, i, j);
    }
    forall id | id in s.streams
      ensures && SentBytes(s.out, id) + s.streams[id].sendWindow == INITIAL_WINDOW + TotalCredited(Start(), es, id)
              && SentBytes(s.out, id) <= INITIAL_WINDOW + TotalAccepted(Start(), es, id)
              && s.streams[id].sendWindow <= MAX_YAMUX_WINDOW
    {
      FlowControl(es, id);
    }
  }
}
