/** What every run of the multiplexer keeps: tables, lifecycle, flow control and payload. */
module TcpMuxSafety {
  import opened Bytes
  import opened MuxFrames
  import opened TcpMux

  // ---- Session ids ----

  lemma SameRemainder(x: nat, d: nat)
    ensures (x + d) % TWO_32 == x % TWO_32 <==> d % TWO_32 == 0
  {}

  /** Ids are odd and non-zero, and two allocations share one if and only if 2^31 lie between them. */
  lemma SessionIds(i: nat, j: nat)
    requires i <= j
    ensures SessionId(i) % 2 == 1
    ensures SessionId(i) == SessionId(j) <==> (j - i) % TWO_31 == 0
  {
    SameRemainder(1 + 2 * i, 2 * (j - i));
  }

  /** So while ids last a new stream never meets one with its id in the table. */
  lemma NewIdIsFree(s: Session)
    requires Tables(s) && s.allocs < TWO_31
    ensures SessionId(s.allocs) !in s.streams && SessionId(s.allocs) !in s.registered
  {
    OpenedId(s);
  }

  // ---- Tables and windows ----

  predicate Dead(state: StreamState) {
    state in {LocalClose, Closed, Reset}
  }

  predicate StreamOk(st: Stream) {
    && st.sendWindow <= MAX_YAMUX_WINDOW
    && st.recvWindow <= MAX_STREAM_WINDOW
    && (st.recvWindow < MAX_STREAM_WINDOW ==> Dead(st.state))
    && (st.state == Init ==> st.sendWindow >= INITIAL_WINDOW)
  }

  predicate Tables(s: Session) {
    && s.registered <= s.streams.Keys
    && s.clients.Keys <= s.registered
    && (forall id :: id in s.registered ==> s.streams[id].state !in {Closed, Reset})
    && (forall id :: id in s.streams ==> id % 2 == 1 && id < 2 * s.allocs && StreamOk(s.streams[id]))
    && s.allocs <= TWO_31
  }

  lemma RaiseIsMin(window: nat, increment: nat)
    requires window <= MAX_YAMUX_WINDOW && increment <= MAX_STREAM_WINDOW
    ensures Raise(window, increment) == Min(window + increment, MAX_YAMUX_WINDOW)
  {}

  /** Changing a stream in place, unless it dies while registered. */
  lemma TablesSet(s: Session, id: nat, st: Stream)
    requires Tables(s) && id in s.streams && StreamOk(st)
    requires id in s.registered ==> st.state !in {Closed, Reset}
    ensures Tables(SetStream(s, id, st))
  {}

  /** Letting a stream die and taking it out of both tables. */
  lemma TablesRetire(s: Session, id: nat, st: Stream)
    requires Tables(s) && id in s.streams && StreamOk(st)
    ensures Tables(Delete(SetStream(s, id, st), id))
  {}

  lemma TablesFlags(s: Session, id: nat, f: Flags)
    requires Tables(s) && id in s.streams && id in s.registered
    ensures var (s', ok) := ApplyFlags(s, id, f);
            && Tables(s') && id in s'.streams && s'.out == s.out
            && (id in s'.registered ==> s'.clients == s.clients)
  {
    var st := s.streams[id];
    var r := ProcessFlags(st.state, f);
    if r.close {
      TablesRetire(s, id, st.(state := r.state));
    } else {
      TablesSet(s, id, st.(state := r.state));
    }
  }

  lemma TablesClose(s: Session, id: nat)
    requires Tables(s) && id in s.streams
    ensures Tables(Close(s, id))
  {
    var st := s.streams[id];
    match st.state
    case SynSend | SynReceived | Established => TablesSet(s, id, st.(state := LocalClose));
    case LocalClose | RemoteClose => TablesRetire(s, id, st.(state := Closed));
    case _ =>
  }

  lemma TablesDeliver(s: Session, id: nat, length: nat, short: bool)
    requires Tables(s) && id in s.streams && id in s.registered && length <= s.streams[id].recvWindow
    ensures Tables(Deliver(s, id, length, short))
  {
    var st := s.streams[id];
    if short && !IsSevered(s, id) {
      TablesSet(s, id, st.(recvWindow := st.recvWindow - length, state := LocalClose));
    } else if length == 0 {
      TablesAnnounce(s, id);
    } else {
      TablesSet(s, id, GetSendFlags(st).0.(recvWindow := MAX_STREAM_WINDOW));
    }
  }

  lemma TablesData(s: Session, id: nat, f: Flags, length: nat, short: bool)
    requires Tables(s) && id in s.streams && id in s.registered
    ensures Tables(ReceiveData(s, id, f, length, short).0)
  {
    TablesFlags(s, id, f);
    var (s1, ok) := ApplyFlags(s, id, f);
    if ok && id in s1.registered && length <= s1.streams[id].recvWindow {
      TablesDeliver(s1, id, length, short);
    }
  }

  lemma TablesAnnounce(s: Session, id: nat)
    requires Tables(s) && id in s.streams
    ensures Tables(Announce(s, id))
  {
    TablesSet(s, id, GetSendFlags(s.streams[id]).0);
  }

  lemma TablesWindow(s: Session, id: nat, f: Flags, increment: nat)
    requires Tables(s)
    ensures Tables(ReceiveWindowUpdate(s, id, f, increment))
  {
    if !f.syn && id in s.registered {
      TablesFlags(s, id, f);
      var (s1, ok) := ApplyFlags(s, id, f);
      if ok && id in s1.registered && increment <= MAX_STREAM_WINDOW {
        var st := s1.streams[id];
        RaiseIsMin(st.sendWindow, increment);
        TablesSet(s1, id, st.(sendWindow := Raise(st.sendWindow, increment)));
        TablesClose(SetStream(s1, id, st.(sendWindow := Raise(st.sendWindow, increment))), id);
      }
    }
  }

  lemma TablesWrite(s: Session, id: nat, src: Bytes, hasOut: bool)
    requires Tables(s) && id in s.streams
    ensures Tables(Write(s, id, src, hasOut).0)
  {
    var st := s.streams[id];
    var (st', _) := GetSendFlags(st);
    if !Dead(st.state) {
      TablesSet(s, id, st');
      var n := Min(Min(|src|, st.sendWindow), MAX_FRAME);
      TablesSet(s, id, st'.(sendWindow := st.sendWindow - n));
    }
  }

  /** One step keeps both tables in agreement, the windows in range and dead streams out of the table. */
  lemma TablesStep(s: Session, e: Event)
    requires Tables(s) && Enabled(s, e)
    ensures Tables(Step(s, e))
  {
    match e
    case EvAnnounce(id) => TablesAnnounce(s, id);
    case EvWrite(id, src, hasOut) => TablesWrite(s, id, src, hasOut);
    case EvClose(id) => TablesClose(s, id);
    case EvDisconnect(id) => TablesClose(Sever(s, id), id);
    case EvFlags(id, f) => TablesFlags(s, id, f);
    case EvData(id, f, length, short) => TablesData(s, id, f, length, short);
    case EvWindow(id, f, increment) => TablesWindow(s, id, f, increment);
    case _ =>
  }

  lemma {:induction false} TablesRun(s: Session, es: seq<Event>)
    requires Tables(s) && Runs(s, es)
    ensures Tables(Run(s, es))
    decreases es
  {
    if es == [] {
    } else {
      TablesStep(s, es[0]);
      TablesRun(Step(s, es[0]), es[1..]);
    }
  }

  // ---- The log of one stream ----

  /** Some frame of the stream that is not a bare reset has been written. */
  predicate Announced(out: seq<Frame>, id: nat) {
    out != [] && (Announced(out[..|out| - 1], id) || (out[|out| - 1].id == id && !out[|out| - 1].flags.rst))
  }

  /** FIN or RST has been written. */
  predicate Ended(out: seq<Frame>, id: nat) {
    out != [] && (Ended(out[..|out| - 1], id) ||
                  (out[|out| - 1].id == id && (out[|out| - 1].flags.fin || out[|out| - 1].flags.rst)))
  }

  /** The first frame that is not a reset carries SYN, and no later one does. */
  predicate SynDiscipline(out: seq<Frame>, id: nat) {
    out != [] ==>
      var before, f := out[..|out| - 1], out[|out| - 1];
      SynDiscipline(before, id) && (f.id == id && !f.flags.rst ==> (f.flags.syn <==> !Announced(before, id)))
  }

  /** No DATA follows FIN or RST. */
  predicate QuietAfterEnd(out: seq<Frame>, id: nat) {
    out != [] ==>
      var before, f := out[..|out| - 1], out[|out| - 1];
      QuietAfterEnd(before, id) && (f.id == id && f.kind == DATA ==> !Ended(before, id))
  }

  /** DATA bytes written on the stream. */
  function SentBytes(out: seq<Frame>, id: nat): nat {
    if out == [] then 0
    else
      var f := out[|out| - 1];
      SentBytes(out[..|out| - 1], id) + if f.id == id && f.kind == DATA then f.length else 0
  }

  /** DATA payload written on the stream, in order. */
  function SentPayload(out: seq<Frame>, id: nat): Bytes {
    if out == [] then []
    else
      var f := out[|out| - 1];
      SentPayload(out[..|out| - 1], id) + if f.id == id && f.kind == DATA then f.payload else []
  }

  /** A move of stream `k`: only its record changes, and at most one frame is written, on that stream. */
  predicate Moves(s: Session, s': Session, k: nat, f: Option<Frame>) {
    && k in s.streams && k in s'.streams
    && s'.streams == s.streams[k := s'.streams[k]]
    && s'.out == s.out + (if f.Some? then [f.value] else [])
    && (f.Some? ==> f.value.id == k)
  }

  // ---- Nothing but control frames once a stream has ended ----

  predicate EndInv(s: Session, id: nat) {
    QuietAfterEnd(s.out, id) && (Ended(s.out, id) ==> id in s.streams && Dead(s.streams[id].state))
  }

  predicate EndMove(st: Stream, st': Stream, f: Option<Frame>) {
    && (Dead(st.state) ==> Dead(st'.state))
    && (f.Some? ==>
          && (f.value.kind == DATA ==> !Dead(st.state))
          && (f.value.flags.fin || f.value.flags.rst ==> Dead(st'.state)))
  }

  lemma EndKept(s: Session, s': Session, k: nat, f: Option<Frame>, id: nat)
    requires EndInv(s, id) && Moves(s, s', k, f) && EndMove(s.streams[k], s'.streams[k], f)
    ensures EndInv(s', id)
  {
    if f.Some? {
      assert s'.out[..|s'.out| - 1] == s.out;
    } else {
      assert s'.out == s.out;
    }
  }

  // ---- SYN first and only first ----

  predicate SynInv(s: Session, id: nat) {
    && SynDiscipline(s.out, id)
    && (Announced(s.out, id) ==> id in s.streams && s.streams[id].state != Init)
    && (id in s.streams && !Announced(s.out, id) ==> s.streams[id].state in {Init, Reset})
  }

  predicate SynMove(st: Stream, st': Stream, f: Option<Frame>) {
    match st.state
    case Init =>
      if f.None? then st'.state in {Init, Reset}
      else f.value.flags.syn && !f.value.flags.rst && st'.state != Init
    case Reset => st'.state == Reset && f.None?
    case _ => st'.state != Init && (f.Some? ==> !f.value.flags.syn)
  }

  lemma SynKept(s: Session, s': Session, k: nat, f: Option<Frame>, id: nat)
    requires SynInv(s, id) && Moves(s, s', k, f) && SynMove(s.streams[k], s'.streams[k], f)
    ensures SynInv(s', id)
  {
    if f.Some? {
      assert s'.out[..|s'.out| - 1] == s.out;
    } else {
      assert s'.out == s.out;
    }
  }

  /** Frames that belong to no stream. */
  lemma NeutralFrame(s: Session, f: Frame, id: nat)
    requires f.id != id
    ensures EndInv(s, id) ==> EndInv(Emit(s, f), id)
    ensures SynInv(s, id) ==> SynInv(Emit(s, f), id)
    ensures SentBytes(Emit(s, f).out, id) == SentBytes(s.out, id)
    ensures SentPayload(Emit(s, f).out, id) == SentPayload(s.out, id)
  {
    assert Emit(s, f).out[..|s.out|] == s.out;
  }

  /** What the encoder can put on the wire and the other side accepts. */
  predicate FrameOk(f: Frame) {
    && f.kind <= GO_AWAY && f.id < TWO_32 && f.length < TWO_32
    && if f.kind == DATA then 1 <= f.length == |f.payload| <= MAX_FRAME else f.payload == []
  }

  // ---- Every operation is a few moves ----

  /** The frame a session wrote since `s`, if any. */
  function Wrote(s: Session, s': Session): Option<Frame> {
    if |s'.out| == |s.out| + 1 then Some(s'.out[|s.out|]) else None
  }

  lemma FlagsMove(s: Session, id: nat, f: Flags)
    requires id in s.streams
    ensures var s' := ApplyFlags(s, id, f).0;
            && Moves(s, s', id, None)
            && EndMove(s.streams[id], s'.streams[id], None) && SynMove(s.streams[id], s'.streams[id], None)
            && s'.streams[id].sendWindow == s.streams[id].sendWindow
  {}

  lemma RaiseMove(s: Session, id: nat, window: nat)
    requires id in s.streams
    ensures var s' := SetStream(s, id, s.streams[id].(sendWindow := window));
            && Moves(s, s', id, None)
            && EndMove(s.streams[id], s'.streams[id], None)
            && (SynInv(s, id) ==> SynMove(s.streams[id], s'.streams[id], None))
  {}

  /** A short delivery on a stream that has not been announced is the one untidy way to receive. */
  lemma DeliverMove(s: Session, id: nat, length: nat, short: bool)
    requires Tables(s) && id in s.registered && length <= s.streams[id].recvWindow
    ensures var s' := Deliver(s, id, length, short);
            var f := Wrote(s, s');
            && Moves(s, s', id, f)
            && EndMove(s.streams[id], s'.streams[id], f)
            && (!short || IsSevered(s, id) || s.streams[id].state != Init ==>
                  SynMove(s.streams[id], s'.streams[id], f))
            && s'.streams[id].sendWindow == s.streams[id].sendWindow
            && (f.Some? ==> f.value.kind == WINDOW_UPDATE && (id < TWO_32 ==> FrameOk(f.value)))
  {}

  lemma AnnounceMove(s: Session, id: nat)
    requires id in s.streams
    ensures var s' := Announce(s, id);
            var f := Wrote(s, s');
            && Moves(s, s', id, f)
            && EndMove(s.streams[id], s'.streams[id], f) && SynMove(s.streams[id], s'.streams[id], f)
            && s'.streams[id].sendWindow == s.streams[id].sendWindow
            && (f.Some? ==> f.value.kind == WINDOW_UPDATE && (id < TWO_32 ==> FrameOk(f.value)))
  {
    assert s.streams == s.streams[id := s.streams[id]];
  }

  lemma CloseMove(s: Session, id: nat)
    requires id in s.streams
    ensures var s' := Close(s, id);
            var f := Wrote(s, s');
            && Moves(s, s', id, f)
            && EndMove(s.streams[id], s'.streams[id], f) && SynMove(s.streams[id], s'.streams[id], f)
            && s'.streams[id].sendWindow == s.streams[id].sendWindow
            && (f.Some? ==> f.value.kind == WINDOW_UPDATE && (id < TWO_32 ==> FrameOk(f.value)))
  {
    assert s.streams == s.streams[id := s.streams[id]];
  }

  /** A write that finds no connection although it could have sent is the one untidy way to send. */
  lemma WriteMove(s: Session, id: nat, src: Bytes, hasOut: bool)
    requires id in s.streams
    ensures var (s', w) := Write(s, id, src, hasOut);
            var f := Wrote(s, s');
            && Moves(s, s', id, f)
            && EndMove(s.streams[id], s'.streams[id], f)
            && (hasOut || s.streams[id].state != Init || src == [] ==> SynMove(s.streams[id], s'.streams[id], f))
            && (f.Some? <==> w.Sent? && w.n > 0)
            && (f.Some? ==> f.value.kind == DATA && f.value.length == w.n && f.value.payload == src[..w.n])
            && s'.streams[id].sendWindow + (if w.Sent? then w.n else 0) == s.streams[id].sendWindow
            && (w.Sent? ==> w.n <= MAX_FRAME)
  {
    assert s.streams == s.streams[id := s.streams[id]];
  }

  /** The session in the middle of a WINDOW_UPDATE: flags done, window raised. */
  lemma WindowMoves(s: Session, id: nat, f: Flags, increment: nat) returns (s1: Session, s2: Session)
    requires Tables(s) && !f.syn && id in s.registered
    ensures s1 == ApplyFlags(s, id, f).0 && Tables(s1) && Moves(s, s1, id, None)
    ensures var s' := ReceiveWindowUpdate(s, id, f, increment);
            if !AcceptsIncrement(s, id, f, increment) then s' == s1 || s' == GoAway(s1)
            else
              && Moves(s1, s2, id, None)
              && s2 == SetStream(s1, id, s1.streams[id].(sendWindow := Raise(s1.streams[id].sendWindow, increment)))
              && (s' == s2 || s' == Close(s2, id))
  {
    FlagsMove(s, id, f);
    TablesFlags(s, id, f);
    s1 := ApplyFlags(s, id, f).0;
    s2 := s1;
    if AcceptsIncrement(s, id, f, increment) {
      RaiseMove(s1, id, Raise(s1.streams[id].sendWindow, increment));
      s2 := SetStream(s1, id, s1.streams[id].(sendWindow := Raise(s1.streams[id].sendWindow, increment)));
    }
  }

  /** The stream survives the frame's flags and the increment is one the code accepts. */
  predicate AcceptsIncrement(s: Session, id: nat, f: Flags, increment: nat) {
    && !f.syn && id in s.registered && id in s.streams
    && var (s1, ok) := ApplyFlags(s, id, f);
       ok && id in s1.registered && increment <= MAX_STREAM_WINDOW
  }

  lemma EndData(s: Session, e: Event, id: nat)
    requires Tables(s) && Enabled(s, e) && EndInv(s, id) && e.EvData?
    ensures EndInv(Step(s, e), id)
  {
    var k := e.id;
    FlagsMove(s, k, e.flags);
    TablesFlags(s, k, e.flags);
    var (s1, ok) := ApplyFlags(s, k, e.flags);
    EndKept(s, s1, k, None, id);
    if ok && k in s1.registered && e.length <= s1.streams[k].recvWindow {
      DeliverMove(s1, k, e.length, e.short);
      EndKept(s1, Step(s, e), k, Wrote(s1, Step(s, e)), id);
    }
  }

  lemma EndClose(s: Session, k: nat, id: nat)
    requires k in s.streams && EndInv(s, id)
    ensures EndInv(Close(s, k), id)
  {
    CloseMove(s, k);
    EndKept(s, Close(s, k), k, Wrote(s, Close(s, k)), id);
  }

  lemma EndAnnounce(s: Session, k: nat, id: nat)
    requires k in s.streams && EndInv(s, id)
    ensures EndInv(Announce(s, k), id)
  {
    AnnounceMove(s, k);
    EndKept(s, Announce(s, k), k, Wrote(s, Announce(s, k)), id);
  }

  lemma EndWrite(s: Session, k: nat, src: Bytes, hasOut: bool, id: nat)
    requires k in s.streams && EndInv(s, id)
    ensures EndInv(Write(s, k, src, hasOut).0, id)
  {
    WriteMove(s, k, src, hasOut);
    var s' := Write(s, k, src, hasOut).0;
    EndKept(s, s', k, Wrote(s, s'), id);
  }

  lemma EndWindow(s: Session, e: Event, id: nat)
    requires Tables(s) && EndInv(s, id) && e.EvWindow? && id != 0
    ensures EndInv(Step(s, e), id)
  {
    var k := e.id;
    if !e.flags.syn && k in s.registered {
      FlagsMove(s, k, e.flags);
      var s1, s2 := WindowMoves(s, k, e.flags, e.increment);
      EndKept(s, s1, k, None, id);
      if AcceptsIncrement(s, k, e.flags, e.increment) {
        EndKept(s1, s2, k, None, id);
        EndClose(s2, k, id);
      } else {
        NeutralFrame(s1, Frame(GO_AWAY, ZERO, 0, PROTO_ERR, []), id);
      }
    }
  }

  lemma EndStep(s: Session, e: Event, id: nat)
    requires Tables(s) && Enabled(s, e) && EndInv(s, id) && id != 0
    ensures EndInv(Step(s, e), id)
  {
    match e
    case EvOpen(_) =>
    case EvDelete(_) =>
    case EvAnnounce(k) => EndAnnounce(s, k, id);
    case EvWrite(k, src, hasOut) => EndWrite(s, k, src, hasOut, id);
    case EvClose(k) => EndClose(s, k, id);
    case EvEstablish(_) =>
    case EvDisconnect(k) => EndClose(Sever(s, k), k, id);
    case EvFlags(k, f) => FlagsMove(s, k, f); EndKept(s, Step(s, e), k, None, id);
    case EvData(_, _, _, _) => EndData(s, e, id);
    case EvWindow(_, _, _) => EndWindow(s, e, id);
    case EvPing(f, pingId) => NeutralFrame(s, Frame(PING, ACK, 0, pingId, []), id);
  }

  /** The two ways in which a stream can leave INIT without its SYN being written. */
  predicate Tidy(s: Session, e: Event) {
    match e
    case EvWrite(id, src, hasOut) => hasOut || src == [] || (id in s.streams && s.streams[id].state != Init)
    case EvData(id, f, length, short) =>
      !short || IsSevered(s, id) || (id in s.streams && (ProcessFlags(s.streams[id].state, f).state != Init ||
                                     length > s.streams[id].recvWindow))
    case _ => true
  }

  lemma SynData(s: Session, e: Event, id: nat)
    requires Tables(s) && Enabled(s, e) && SynInv(s, id) && e.EvData? && Tidy(s, e)
    ensures SynInv(Step(s, e), id)
  {
    var k := e.id;
    FlagsMove(s, k, e.flags);
    TablesFlags(s, k, e.flags);
    var (s1, ok) := ApplyFlags(s, k, e.flags);
    SynKept(s, s1, k, None, id);
    if ok && k in s1.registered && e.length <= s1.streams[k].recvWindow {
      DeliverMove(s1, k, e.length, e.short);
      SynKept(s1, Step(s, e), k, Wrote(s1, Step(s, e)), id);
    }
  }

  lemma SynClose(s: Session, k: nat, id: nat)
    requires k in s.streams && SynInv(s, id)
    ensures SynInv(Close(s, k), id)
  {
    CloseMove(s, k);
    SynKept(s, Close(s, k), k, Wrote(s, Close(s, k)), id);
  }

  lemma SynAnnounce(s: Session, k: nat, id: nat)
    requires k in s.streams && SynInv(s, id)
    ensures SynInv(Announce(s, k), id)
  {
    AnnounceMove(s, k);
    SynKept(s, Announce(s, k), k, Wrote(s, Announce(s, k)), id);
  }

  lemma SynWrite(s: Session, k: nat, src: Bytes, hasOut: bool, id: nat)
    requires k in s.streams && SynInv(s, id) && (hasOut || src == [] || s.streams[k].state != Init)
    ensures SynInv(Write(s, k, src, hasOut).0, id)
  {
    WriteMove(s, k, src, hasOut);
    var s' := Write(s, k, src, hasOut).0;
    SynKept(s, s', k, Wrote(s, s'), id);
  }

  lemma SynWindow(s: Session, e: Event, id: nat)
    requires Tables(s) && SynInv(s, id) && e.EvWindow? && id != 0
    ensures SynInv(Step(s, e), id)
  {
    var k := e.id;
    if !e.flags.syn && k in s.registered {
      FlagsMove(s, k, e.flags);
      var s1, s2 := WindowMoves(s, k, e.flags, e.increment);
      SynKept(s, s1, k, None, id);
      if AcceptsIncrement(s, k, e.flags, e.increment) {
        SynKept(s1, s2, k, None, id);
        SynClose(s2, k, id);
      } else {
        NeutralFrame(s1, Frame(GO_AWAY, ZERO, 0, PROTO_ERR, []), id);
      }
    }
  }

  lemma SynStep(s: Session, e: Event, id: nat)
    requires Tables(s) && Enabled(s, e) && SynInv(s, id) && Tidy(s, e) && id != 0
    ensures SynInv(Step(s, e), id)
  {
    match e
    case EvOpen(_) =>
    case EvDelete(_) =>
    case EvAnnounce(k) => SynAnnounce(s, k, id);
    case EvWrite(k, src, hasOut) => SynWrite(s, k, src, hasOut, id);
    case EvClose(k) => SynClose(s, k, id);
    case EvEstablish(_) =>
    case EvDisconnect(k) => SynClose(Sever(s, k), k, id);
    case EvFlags(k, f) => FlagsMove(s, k, f); SynKept(s, Step(s, e), k, None, id);
    case EvData(_, _, _, _) => SynData(s, e, id);
    case EvWindow(_, _, _) => SynWindow(s, e, id);
    case EvPing(f, pingId) => NeutralFrame(s, Frame(PING, ACK, 0, pingId, []), id);
  }

  // ---- Lifecycle over whole runs ----

  predicate TidyRun(s: Session, es: seq<Event>)
    requires Runs(s, es)
    decreases es
  {
    es == [] || (Tidy(s, es[0]) && TidyRun(Step(s, es[0]), es[1..]))
  }

  lemma {:induction false} InvRun(s: Session, es: seq<Event>, id: nat)
    requires Tables(s) && Runs(s, es) && id != 0 && EndInv(s, id)
    ensures EndInv(Run(s, es), id)
    ensures SynInv(s, id) && TidyRun(s, es) ==> SynInv(Run(s, es), id)
    decreases es
  {
    if es == [] {
    } else {
      TablesStep(s, es[0]);
      EndStep(s, es[0], id);
      if SynInv(s, id) && Tidy(s, es[0]) {
        SynStep(s, es[0], id);
      }
      InvRun(Step(s, es[0]), es[1..], id);
    }
  }

  /** In every run, once FIN or RST has been written on a stream no DATA frame follows on it. */
  lemma NoDataAfterEnd(es: seq<Event>, i: nat, j: nat)
    requires Runs(Start(), es)
    requires var out := Run(Start(), es).out;
             && i < j < |out| && out[i].id == out[j].id != 0 && (out[i].flags.fin || out[i].flags.rst)
    ensures Run(Start(), es).out[j].kind != DATA
  {
    var out := Run(Start(), es).out;
    InvRun(Start(), es, out[j].id);
    QuietAt(out, out[j].id, i, j);
  }

  lemma {:induction false} QuietAt(out: seq<Frame>, id: nat, i: nat, j: nat)
    requires QuietAfterEnd(out, id) && i < j < |out| && out[i].id == out[j].id == id
    requires out[i].flags.fin || out[i].flags.rst
    ensures out[j].kind != DATA
    decreases |out|
  {
    var before := out[..|out| - 1];
    if j < |before| {
      QuietAt(before, id, i, j);
    } else {
      EndedAt(before, id, i);
    }
  }

  lemma {:induction false} EndedAt(out: seq<Frame>, id: nat, i: nat)
    requires i < |out| && out[i].id == id && (out[i].flags.fin || out[i].flags.rst)
    ensures Ended(out, id)
    decreases |out|
  {
    if i == |out| - 1 {
    } else {
      EndedAt(out[..|out| - 1], id, i);
    }
  }

  /**
   In every tidy run a frame that is not a reset carries SYN if and only if it is the first such frame
   of its stream.
   */
  lemma SynExactlyOnFirst(es: seq<Event>, j: nat)
    requires Runs(Start(), es) && TidyRun(Start(), es)
    requires var out := Run(Start(), es).out; j < |out| && out[j].id != 0 && !out[j].flags.rst
    ensures var out := Run(Start(), es).out;
            out[j].flags.syn <==> forall i :: 0 <= i < j && out[i].id == out[j].id ==> out[i].flags.rst
  {
    var out := Run(Start(), es).out;
    InvRun(Start(), es, out[j].id);
    SynAt(out, out[j].id, j);
    AnnouncedMeans(out[..j], out[j].id);
  }

  lemma {:induction false} SynAt(out: seq<Frame>, id: nat, j: nat)
    requires SynDiscipline(out, id) && j < |out| && out[j].id == id && !out[j].flags.rst
    ensures out[j].flags.syn <==> !Announced(out[..j], id)
    decreases |out|
  {
    if j == |out| - 1 {
    } else {
      SynAt(out[..|out| - 1], id, j);
      assert out[..|out| - 1][..j] == out[..j];
    }
  }

  lemma {:induction false} AnnouncedMeans(out: seq<Frame>, id: nat)
    ensures !Announced(out, id) <==> forall i :: 0 <= i < |out| && out[i].id == id ==> out[i].flags.rst
    decreases |out|
  {
    if out == [] {
    } else {
      AnnouncedMeans(out[..|out| - 1], id);
      assert forall i :: 0 <= i < |out| - 1 ==> out[i] == out[..|out| - 1][i];
    }
  }

  /** What follows an untidy step: the next ordinary call writes a first frame without SYN. */
  function Exposing(e: Event): Event
    requires e.EvWrite? || e.EvData?
  {
    if e.EvWrite? then EvWrite(e.id, [0], true) else EvClose(e.id)
  }

  /** A first frame that is neither a reset nor a SYN. */
  lemma BareFirstFrame(out: seq<Frame>, f: Frame)
    requires !Announced(out, f.id) && !f.flags.rst && !f.flags.syn
    ensures !SynDiscipline(out + [f], f.id)
  {
    var all := out + [f];
    assert all[..|all| - 1] == out && all[|all| - 1] == f;
  }

  lemma UntidyWriteBreaks(s: Session, e: Event)
    requires Tables(s) && Enabled(s, e) && !Tidy(s, e) && SynInv(s, e.id) && e.EvWrite?
    ensures Enabled(Step(s, e), Exposing(e))
    ensures !SynDiscipline(Step(Step(s, e), Exposing(e)).out, e.id)
  {
    var s1 := Step(s, e);
    assert s1 == SetStream(s, e.id, s.streams[e.id].(state := SynSend));
    var f := Frame(DATA, ZERO, e.id, 1, [0]);
    assert [0][..1] == [0];
    assert Step(s1, Exposing(e)).out == s.out + [f];
    BareFirstFrame(s.out, f);
  }

  /** A short delivery on a stream still in INIT: reset on the wire, closed here, never announced. */
  lemma ShortOnInit(s: Session, e: Event)
    requires Tables(s) && Enabled(s, e) && !Tidy(s, e) && e.EvData?
    ensures Step(s, e).out == s.out + [Frame(WINDOW_UPDATE, RST, e.id, 0, [])]
    ensures e.id in Step(s, e).streams && Step(s, e).streams[e.id].state == LocalClose
    ensures s.streams[e.id].state == Init
  {
    var st := s.streams[e.id];
    assert ProcessFlags(st.state, e.flags) == FlagResult(Init, false, true);
    var s1 := ApplyFlags(s, e.id, e.flags).0;
    assert s1 == SetStream(s, e.id, st.(state := Init));
    assert Step(s, e) == Deliver(s1, e.id, e.length, true);
  }

  lemma UnannouncedFin(s: Session, id: nat)
    requires id in s.streams && s.streams[id].state == LocalClose && !Announced(s.out, id)
    ensures !SynDiscipline(Close(s, id).out, id)
  {
    BareFirstFrame(s.out, Frame(WINDOW_UPDATE, FIN, id, 0, []));
  }

  lemma UntidyDataBreaks(s: Session, e: Event)
    requires Tables(s) && Enabled(s, e) && !Tidy(s, e) && SynInv(s, e.id) && e.EvData?
    ensures Enabled(Step(s, e), Exposing(e))
    ensures !SynDiscipline(Step(Step(s, e), Exposing(e)).out, e.id)
  {
    ShortOnInit(s, e);
    var s1 := Step(s, e);
    assert s1.out[..|s1.out| - 1] == s.out;
    UnannouncedFin(s1, e.id);
  }

  /** Tidiness is needed: after any untidy step on a stream, one more call breaks the discipline. */
  lemma UntidyBreaks(s: Session, e: Event)
    requires Tables(s) && Enabled(s, e) && !Tidy(s, e) && SynInv(s, e.id)
    ensures Runs(s, [e, Exposing(e)]) && !SynDiscipline(Run(s, [e, Exposing(e)]).out, e.id)
  {
    var e2 := Exposing(e);
    assert [e, e2][1..] == [e2] && [e2][1..] == [];
    if e.EvWrite? {
      UntidyWriteBreaks(s, e);
    } else {
      UntidyDataBreaks(s, e);
    }
    var s2 := Step(Step(s, e), e2);
    assert Run(Step(s, e), [e2]) == Run(s2, []);
  }

  // ---- Reset ----

  /** A received RST resets the stream, except next to FIN on a remotely closed one or next to SYN. */
  lemma RstHonoured(s: Session, id: nat, f: Flags, n: nat, short: bool)
    requires Tables(s) && id in s.registered && f.rst
    ensures ReceiveData(s, id, f, n, short).0.streams[id].state == Reset
            <==> !(f.fin && s.streams[id].state == RemoteClose)
    ensures id in ReceiveWindowUpdate(s, id, f, n).streams
    ensures ReceiveWindowUpdate(s, id, f, n).streams[id].state == Reset
            <==> !f.syn && !(f.fin && s.streams[id].state == RemoteClose)
  {
    var st := s.streams[id];
    var r := ProcessFlags(st.state, f);
    assert r.state == Reset <==> !(f.fin && st.state == RemoteClose);
    assert r.ok ==> r.close;
  }

  /** From then on nothing is written on the stream, in any run. */
  lemma {:induction false} ResetIsFinal(s: Session, es: seq<Event>, id: nat)
    requires Tables(s) && Runs(s, es) && id in s.streams && s.streams[id].state == Reset
    ensures var s' := Run(s, es);
            && id in s'.streams && s'.streams[id].state == Reset
            && s.out <= s'.out && forall j :: |s.out| <= j < |s'.out| ==> s'.out[j].id != id
    decreases es
  {
    if es == [] {
    } else {
      var s1 := Step(s, es[0]);
      TablesStep(s, es[0]);
      ResetStep(s, es[0], id);
      ResetIsFinal(s1, es[1..], id);
    }
  }

  /** Nothing is written on `id`, and it stays reset. */
  predicate StaysReset(s: Session, s': Session, id: nat) {
    && id in s'.streams && s'.streams[id].state == Reset
    && s.out <= s'.out && forall j :: |s.out| <= j < |s'.out| ==> s'.out[j].id != id
  }

  lemma ResetMove(s: Session, s': Session, k: nat, f: Option<Frame>, id: nat)
    requires id in s.streams && s.streams[id].state == Reset
    requires Moves(s, s', k, f) && SynMove(s.streams[k], s'.streams[k], f)
    ensures StaysReset(s, s', id)
  {}

  lemma ResetLocal(s: Session, k: nat, src: Bytes, hasOut: bool, id: nat)
    requires id in s.streams && s.streams[id].state == Reset && k in s.streams
    ensures StaysReset(s, Close(s, k), id) && StaysReset(s, Announce(s, k), id)
    ensures StaysReset(s, Write(s, k, src, hasOut).0, id)
  {
    AnnounceMove(s, k);
    ResetMove(s, Announce(s, k), k, Wrote(s, Announce(s, k)), id);
    CloseMove(s, k);
    ResetMove(s, Close(s, k), k, Wrote(s, Close(s, k)), id);
    WriteMove(s, k, src, hasOut);
  }

  lemma ResetStep(s: Session, e: Event, id: nat)
    requires Tables(s) && Enabled(s, e) && id in s.streams && s.streams[id].state == Reset
    ensures StaysReset(s, Step(s, e), id)
  {
    assert id != 0 && id !in s.registered;
    match e
    case EvOpen(_) => OpenedId(s);
    case EvAnnounce(k) => ResetLocal(s, k, [], true, id);
    case EvClose(k) => ResetLocal(s, k, [], true, id);
    case EvDisconnect(k) => ResetLocal(Sever(s, k), k, [], true, id);
    case EvFlags(k, f) => FlagsMove(s, k, f); ResetMove(s, Step(s, e), k, None, id);
    case EvWrite(k, src, hasOut) => ResetLocal(s, k, src, hasOut, id);
    case EvData(k, f, length, short) => ResetData(s, e, id);
    case EvWindow(k, f, increment) => ResetWindow(s, e, id);
    case _ =>
  }

  lemma ResetData(s: Session, e: Event, id: nat)
    requires Tables(s) && Enabled(s, e) && e.EvData? && id in s.streams && s.streams[id].state == Reset
    ensures StaysReset(s, Step(s, e), id)
  {
    var k := e.id;
    TablesFlags(s, k, e.flags);
    FlagsMove(s, k, e.flags);
    var (s1, ok) := ApplyFlags(s, k, e.flags);
    if ok && k in s1.registered && e.length <= s1.streams[k].recvWindow {
      DeliverMove(s1, k, e.length, e.short);
    }
  }

  lemma ResetWindow(s: Session, e: Event, id: nat)
    requires Tables(s) && e.EvWindow? && id in s.streams && s.streams[id].state == Reset
    ensures StaysReset(s, Step(s, e), id)
  {
    var k := e.id;
    if !e.flags.syn && k in s.registered {
      var s1, s2 := WindowMoves(s, k, e.flags, e.increment);
      if AcceptsIncrement(s, k, e.flags, e.increment) {
        CloseMove(s2, k);
      }
    }
  }

  // ---- Flow control ----

  /** Bytes written plus bytes still allowed. */
  function Account(s: Session, id: nat): nat {
    SentBytes(s.out, id) + if id in s.streams then s.streams[id].sendWindow else INITIAL_WINDOW
  }

  /** What a step adds to the account: an accepted increment, as far as the 6 MiB cap lets it count. */
  function Credited(s: Session, e: Event, id: nat): int {
    if e.EvWindow? && e.id == id && AcceptsIncrement(s, id, e.flags, e.increment)
    then Min(e.increment, MAX_YAMUX_WINDOW - s.streams[id].sendWindow) else 0
  }

  lemma AccountMove(s: Session, s': Session, k: nat, f: Option<Frame>, id: nat)
    requires Moves(s, s', k, f)
    ensures Account(s', id) == Account(s, id) + if id != k then 0
              else s'.streams[k].sendWindow - s.streams[k].sendWindow +
                   if f.Some? && f.value.kind == DATA then f.value.length else 0
    ensures SentPayload(s'.out, id) == SentPayload(s.out, id) +
              if f.Some? && f.value.kind == DATA && id == k then f.value.payload else []
  {
    if f.Some? {
      assert s'.out[..|s'.out| - 1] == s.out;
    } else {
      assert s'.out == s.out;
    }
  }

  /** The source bytes a step moves onto the stream. */
  function TakenBy(s: Session, e: Event, id: nat): Bytes {
    if e.EvWrite? && e.id == id && id in s.streams && Write(s, id, e.src, e.hasOut).1.Sent?
    then e.src[..Write(s, id, e.src, e.hasOut).1.n] else []
  }

  lemma AccountData(s: Session, e: Event, id: nat)
    requires Tables(s) && Enabled(s, e) && e.EvData?
    ensures Account(Step(s, e), id) == Account(s, id)
    ensures SentPayload(Step(s, e).out, id) == SentPayload(s.out, id)
  {
    var k := e.id;
    FlagsMove(s, k, e.flags);
    TablesFlags(s, k, e.flags);
    var (s1, ok) := ApplyFlags(s, k, e.flags);
    AccountMove(s, s1, k, None, id);
    if ok && k in s1.registered && e.length <= s1.streams[k].recvWindow {
      DeliverMove(s1, k, e.length, e.short);
      AccountMove(s1, Step(s, e), k, Wrote(s1, Step(s, e)), id);
    }
  }

  lemma AccountClose(s: Session, k: nat, id: nat)
    requires k in s.streams
    ensures Account(Close(s, k), id) == Account(s, id)
    ensures SentPayload(Close(s, k).out, id) == SentPayload(s.out, id)
  {
    CloseMove(s, k);
    AccountMove(s, Close(s, k), k, Wrote(s, Close(s, k)), id);
  }

  lemma AccountWindow(s: Session, e: Event, id: nat)
    requires Tables(s) && e.EvWindow? && id != 0
    ensures Account(Step(s, e), id) == Account(s, id) + Credited(s, e, id)
    ensures SentPayload(Step(s, e).out, id) == SentPayload(s.out, id)
  {
    var k := e.id;
    if !e.flags.syn && k in s.registered {
      FlagsMove(s, k, e.flags);
      var s1, s2 := WindowMoves(s, k, e.flags, e.increment);
      AccountMove(s, s1, k, None, id);
      if AcceptsIncrement(s, k, e.flags, e.increment) {
        RaiseIsMin(s1.streams[k].sendWindow, e.increment);
        AccountMove(s1, s2, k, None, id);
        AccountClose(s2, k, id);
      } else {
        NeutralFrame(s1, Frame(GO_AWAY, ZERO, 0, PROTO_ERR, []), id);
      }
    }
  }

  lemma AccountWrite(s: Session, e: Event, id: nat)
    requires Enabled(s, e) && e.EvWrite?
    ensures Account(Step(s, e), id) == Account(s, id)
    ensures SentPayload(Step(s, e).out, id) == SentPayload(s.out, id) + TakenBy(s, e, id)
  {
    WriteMove(s, e.id, e.src, e.hasOut);
    AccountMove(s, Step(s, e), e.id, Wrote(s, Step(s, e)), id);
  }

  lemma AccountAnnounce(s: Session, k: nat, id: nat)
    requires k in s.streams
    ensures Account(Announce(s, k), id) == Account(s, id)
    ensures SentPayload(Announce(s, k).out, id) == SentPayload(s.out, id)
  {
    AnnounceMove(s, k);
    AccountMove(s, Announce(s, k), k, Wrote(s, Announce(s, k)), id);
  }

  lemma AccountOther(s: Session, e: Event, id: nat)
    requires Tables(s) && Enabled(s, e) && id != 0 && !e.EvWrite? && !e.EvData? && !e.EvWindow?
    ensures Account(Step(s, e), id) == Account(s, id)
    ensures SentPayload(Step(s, e).out, id) == SentPayload(s.out, id)
  {
    match e
    case EvAnnounce(k) => AccountAnnounce(s, k, id);
    case EvClose(k) => AccountClose(s, k, id);
    case EvDisconnect(k) => AccountClose(Sever(s, k), k, id);
    case EvFlags(k, f) => FlagsMove(s, k, f); AccountMove(s, Step(s, e), k, None, id);
    case EvPing(f, pingId) => NeutralFrame(s, Frame(PING, ACK, 0, pingId, []), id);
    case EvOpen(_) => OpenedId(s);
    case _ =>
  }

  lemma OpenedId(s: Session)
    requires s.allocs < TWO_31
    ensures SessionId(s.allocs) == 1 + 2 * s.allocs
  {}

  lemma AccountStep(s: Session, e: Event, id: nat)
    requires Tables(s) && Enabled(s, e) && id != 0
    ensures Account(Step(s, e), id) == Account(s, id) + Credited(s, e, id)
    ensures SentPayload(Step(s, e).out, id) == SentPayload(s.out, id) + TakenBy(s, e, id)
  {
    match e
    case EvWrite(_, _, _) => AccountWrite(s, e, id);
    case EvData(_, _, _, _) => AccountData(s, e, id);
    case EvWindow(_, _, _) => AccountWindow(s, e, id);
    case _ => AccountOther(s, e, id);
  }

  function TotalCredited(s: Session, es: seq<Event>, id: nat): int
    requires Runs(s, es)
    decreases es
  {
    if es == [] then 0 else Credited(s, es[0], id) + TotalCredited(Step(s, es[0]), es[1..], id)
  }

  /** All increments the code accepts in a run, uncapped. */
  function TotalAccepted(s: Session, es: seq<Event>, id: nat): nat
    requires Runs(s, es)
    decreases es
  {
    if es == [] then 0
    else
      var e := es[0];
      var here := if e.EvWindow? && e.id == id && AcceptsIncrement(s, id, e.flags, e.increment) then e.increment else 0;
      here + TotalAccepted(Step(s, e), es[1..], id)
  }

  function TotalTaken(s: Session, es: seq<Event>, id: nat): Bytes
    requires Runs(s, es)
    decreases es
  {
    if es == [] then [] else TakenBy(s, es[0], id) + TotalTaken(Step(s, es[0]), es[1..], id)
  }

  lemma {:induction false} AccountRun(s: Session, es: seq<Event>, id: nat)
    requires Tables(s) && Runs(s, es) && id != 0
    ensures Account(Run(s, es), id) == Account(s, id) + TotalCredited(s, es, id)
    ensures SentPayload(Run(s, es).out, id) == SentPayload(s.out, id) + TotalTaken(s, es, id)
    ensures TotalCredited(s, es, id) <= TotalAccepted(s, es, id)
    decreases es
  {
    if es == [] {
    } else {
      TablesStep(s, es[0]);
      AccountStep(s, es[0], id);
      AccountRun(Step(s, es[0]), es[1..], id);
      Assoc(SentPayload(s.out, id), TakenBy(s, es[0], id), TotalTaken(Step(s, es[0]), es[1..], id));
    }
  }

  /**
   Sender flow control: in every run the bytes written on a stream plus its window are exactly 256 KiB
   plus the credit that counted; so it never writes more than 256 KiB plus the accepted increments, and
   its window never exceeds 6 MiB.
   */
  lemma FlowControl(es: seq<Event>, id: nat)
    requires Runs(Start(), es) && id in Run(Start(), es).streams
    ensures var s := Run(Start(), es);
            && SentBytes(s.out, id) + s.streams[id].sendWindow == INITIAL_WINDOW + TotalCredited(Start(), es, id)
            && SentBytes(s.out, id) <= INITIAL_WINDOW + TotalAccepted(Start(), es, id)
            && s.streams[id].sendWindow <= MAX_YAMUX_WINDOW
  {
    TablesRun(Start(), es);
    AccountRun(Start(), es, id);
  }

  // ---- What is written is well formed ----

  predicate OutOk(s: Session) {
    forall i :: 0 <= i < |s.out| ==> FrameOk(s.out[i])
  }

  lemma OutOkMove(s: Session, s': Session, k: nat, f: Option<Frame>)
    requires OutOk(s) && Moves(s, s', k, f) && (f.Some? ==> FrameOk(f.value))
    ensures OutOk(s')
  {}

  lemma OutOkWindow(s: Session, e: Event)
    requires Tables(s) && OutOk(s) && e.EvWindow?
    ensures OutOk(Step(s, e))
  {
    var k := e.id;
    if !e.flags.syn && k in s.registered {
      var s1, s2 := WindowMoves(s, k, e.flags, e.increment);
      OutOkMove(s, s1, k, None);
      if AcceptsIncrement(s, k, e.flags, e.increment) {
        OutOkMove(s1, s2, k, None);
        CloseMove(s2, k);
        OutOkMove(s2, Close(s2, k), k, Wrote(s2, Close(s2, k)));
      }
    }
  }

  lemma OutOkData(s: Session, e: Event)
    requires Tables(s) && OutOk(s) && Enabled(s, e) && e.EvData?
    ensures OutOk(Step(s, e))
  {
    var k := e.id;
    FlagsMove(s, k, e.flags);
    TablesFlags(s, k, e.flags);
    var (s1, ok) := ApplyFlags(s, k, e.flags);
    OutOkMove(s, s1, k, None);
    if ok && k in s1.registered && e.length <= s1.streams[k].recvWindow {
      DeliverMove(s1, k, e.length, e.short);
      OutOkMove(s1, Step(s, e), k, Wrote(s1, Step(s, e)));
    }
  }

  lemma OutOkStep(s: Session, e: Event)
    requires Tables(s) && OutOk(s) && Enabled(s, e)
    ensures OutOk(Step(s, e))
  {
    match e
    case EvOpen(_) =>
    case EvDelete(_) =>
    case EvAnnounce(k) => AnnounceMove(s, k); OutOkMove(s, Step(s, e), k, Wrote(s, Step(s, e)));
    case EvWrite(k, src, hasOut) => WriteMove(s, k, src, hasOut); OutOkMove(s, Step(s, e), k, Wrote(s, Step(s, e)));
    case EvClose(k) => CloseMove(s, k); OutOkMove(s, Step(s, e), k, Wrote(s, Step(s, e)));
    case EvEstablish(_) =>
    case EvDisconnect(k) =>
      var s1 := Sever(s, k);
      CloseMove(s1, k);
      OutOkMove(s1, Close(s1, k), k, Wrote(s1, Close(s1, k)));
    case EvFlags(k, f) => FlagsMove(s, k, f); OutOkMove(s, Step(s, e), k, None);
    case EvData(_, _, _, _) => OutOkData(s, e);
    case EvWindow(_, _, _) => OutOkWindow(s, e);
    case EvPing(_, _) =>
  }

  lemma {:induction false} OutOkRun(s: Session, es: seq<Event>)
    requires Tables(s) && OutOk(s) && Runs(s, es)
    ensures OutOk(Run(s, es))
    decreases es
  {
    if es == [] {
    } else {
      TablesStep(s, es[0]);
      OutOkStep(s, es[0]);
      OutOkRun(Step(s, es[0]), es[1..]);
    }
  }
}
