/** What frames and calls do to the life of a stream: who is touched, who leaves the tables, what is written. */
module TcpMuxLifecycle {
  import opened Bytes
  import opened MuxFrames
  import opened TcpMux
  import opened TcpMuxSafety

  // ---- A step touches only the stream it names ----

  /** The stream a step is about; opening is about the id it hands out, and PING about none. */
  function Subject(s: Session, e: Event): nat {
    match e
    case EvOpen(_) => SessionId(s.allocs)
    case EvPing(_, _) => 0
    case _ => e.id
  }

  /** Stream `x` is the same in both sessions, with its entries in both tables. */
  predicate SameAt(s: Session, s': Session, x: nat) {
    && (x in s'.registered <==> x in s.registered)
    && (x in s'.streams <==> x in s.streams)
    && (x in s.streams && x in s'.streams ==> s'.streams[x] == s.streams[x])
    && (x in s'.clients <==> x in s.clients)
    && (x in s.clients && x in s'.clients ==> s'.clients[x] == s.clients[x])
  }

  /** Every other stream is the same, and all that was written is on the stream itself or on none. */
  ghost predicate TouchesOnly(s: Session, s': Session, k: nat) {
    && (forall x :: x != k ==> SameAt(s, s', x))
    && s.out <= s'.out
    && (forall i :: |s.out| <= i < |s'.out| ==> s'.out[i].id in {k, 0})
  }

  lemma DeleteTouches(s: Session, k: nat)
    ensures TouchesOnly(s, Delete(s, k), k)
  {}

  lemma FlagsTouch(s: Session, k: nat, f: Flags)
    requires k in s.streams
    ensures TouchesOnly(s, ApplyFlags(s, k, f).0, k)
  {
    var r := ProcessFlags(s.streams[k].state, f);
    DeleteTouches(SetStream(s, k, s.streams[k].(state := r.state)), k);
  }

  lemma CloseTouches(s: Session, k: nat)
    requires k in s.streams
    ensures TouchesOnly(s, Close(s, k), k)
  {}

  lemma TouchesTwice(s: Session, s1: Session, s2: Session, k: nat)
    requires TouchesOnly(s, s1, k) && TouchesOnly(s1, s2, k)
    ensures TouchesOnly(s, s2, k)
  {
    forall x | x != k
      ensures SameAt(s, s2, x)
    {
      assert SameAt(s, s1, x) && SameAt(s1, s2, x);
    }
  }

  lemma DataTouches(s: Session, k: nat, f: Flags, length: nat, short: bool)
    requires k in s.streams && k in s.registered
    ensures TouchesOnly(s, ReceiveData(s, k, f, length, short).0, k)
  {
    FlagsTouch(s, k, f);
    var (s1, ok) := ApplyFlags(s, k, f);
    if ok && k in s1.registered && length <= s1.streams[k].recvWindow {
      assert TouchesOnly(s1, Deliver(s1, k, length, short), k);
      TouchesTwice(s, s1, Deliver(s1, k, length, short), k);
    }
  }

  lemma WindowTouches(s: Session, k: nat, f: Flags, increment: nat)
    requires Tables(s)
    ensures TouchesOnly(s, ReceiveWindowUpdate(s, k, f, increment), k)
  {
    if !f.syn && k in s.registered {
      FlagsTouch(s, k, f);
      var s1, s2 := WindowMoves(s, k, f, increment);
      if AcceptsIncrement(s, k, f, increment) {
        assert TouchesOnly(s1, s2, k);
        TouchesTwice(s, s1, s2, k);
        CloseTouches(s2, k);
        TouchesTwice(s, s2, Close(s2, k), k);
      } else {
        assert TouchesOnly(s1, GoAway(s1), k);
        TouchesTwice(s, s1, GoAway(s1), k);
      }
    }
  }

  lemma DisconnectTouches(s: Session, k: nat)
    requires k in s.streams && k in s.clients
    ensures TouchesOnly(s, Disconnect(s, k), k)
  {
    var s1 := Sever(s, k);
    assert TouchesOnly(s, s1, k);
    CloseTouches(s1, k);
    TouchesTwice(s, s1, Close(s1, k), k);
  }

  /** The frame law: a step leaves every stream but its own as it was, in both tables and in every field. */
  lemma StepTouches(s: Session, e: Event)
    requires Tables(s) && Enabled(s, e)
    ensures TouchesOnly(s, Step(s, e), Subject(s, e))
  {
    match e
    case EvOpen(_) => OpenedId(s);
    case EvDelete(id) => DeleteTouches(s, id);
    case EvClose(id) => CloseTouches(s, id);
    case EvDisconnect(id) => DisconnectTouches(s, id);
    case EvFlags(id, f) => FlagsTouch(s, id, f);
    case EvData(id, f, length, short) => DataTouches(s, id, f, length, short);
    case EvWindow(id, f, increment) => WindowTouches(s, id, f, increment);
    case _ =>
  }

  /** The run has a step about `x`. */
  predicate Concerns(s: Session, es: seq<Event>, x: nat)
    requires Runs(s, es)
    decreases es
  {
    es != [] && (Subject(s, es[0]) == x || Concerns(Step(s, es[0]), es[1..], x))
  }

  /** Over any run a stream that no step names keeps its state, its windows and its place in both tables. */
  lemma {:induction false} UnnamedIsUntouched(s: Session, es: seq<Event>, x: nat)
    requires Tables(s) && Runs(s, es) && !Concerns(s, es, x)
    ensures SameAt(s, Run(s, es), x)
    decreases es
  {
    if es == [] {
    } else {
      TablesStep(s, es[0]);
      StepTouches(s, es[0]);
      assert SameAt(s, Step(s, es[0]), x);
      UnnamedIsUntouched(Step(s, es[0]), es[1..], x);
    }
  }

  // ---- Opening ----

  /** A new stream has an id of its own, both windows at their start, and its entries in the tables. */
  lemma OpenEnters(s: Session, client: bool)
    requires Tables(s) && s.allocs < TWO_31
    ensures var s', id := Step(s, EvOpen(client)), 2 * s.allocs + 1;
            && id !in s.streams && id !in s.registered
            && id in s'.streams && s'.streams[id] == Stream(Init, 256 * 1024, 8 * 1024 * 1024)
            && id in s'.registered && s'.out == s.out
            && (client <==> id in s'.clients) && (client ==> s'.clients[id] == Client(false, Ordinary))
  {
    NewIdIsFree(s);
    OpenedId(s);
    assert SessionId(s.allocs) !in s.clients;
  }

  /** Announcing writes SYN on a new stream and ACK on an accepted one, and nothing on any other. */
  lemma AnnounceWrites(s: Session, id: nat)
    requires id in s.streams
    ensures var s', st := Step(s, EvAnnounce(id)), s.streams[id];
            && (st.state == Init ==>
                  && s'.out == s.out + [Frame(WINDOW_UPDATE, Flags(true, false, false, false), id, 0, [])]
                  && s'.streams[id] == st.(state := SynSend))
            && (st.state == SynReceived ==>
                  && s'.out == s.out + [Frame(WINDOW_UPDATE, Flags(false, true, false, false), id, 0, [])]
                  && s'.streams[id] == st.(state := Established))
            && (st.state !in {Init, SynReceived} ==> s' == s)
  {}

  /** The peer's ACK establishes a stream that has sent its SYN, and no other. */
  lemma AckEstablishes(s: Session, id: nat, increment: nat)
    requires Tables(s) && id in s.registered && increment <= MAX_STREAM_WINDOW
    requires id in s.clients ==> !s.clients[id].pendingClose
    ensures var s' := ReceiveWindowUpdate(s, id, ACK, increment);
            && id in s'.registered && id in s'.streams
            && s'.streams[id].state ==
               (if s.streams[id].state == SynSend then Established else s.streams[id].state)
  {
    TablesFlags(s, id, ACK);
  }

  // ---- FIN from the peer ----

  /** The stream is in neither table any more. */
  predicate Gone(s: Session, id: nat) {
    id !in s.registered && id !in s.clients
  }

  predicate Opened(state: StreamState) {
    state in {SynSend, SynReceived, Established}
  }

  /** FIN in a DATA frame: half closed, or closed for good when this side had closed already. */
  lemma FinInData(s: Session, id: nat, f: Flags, n: nat)
    requires Tables(s) && id in s.registered && f.fin && !f.rst
    ensures var s', was := ReceiveData(s, id, f, n, false).0, s.streams[id].state;
            && id in s'.streams
            && (Opened(was) ==> s'.streams[id].state == RemoteClose && id in s'.registered && s'.clients == s.clients)
            && (was == LocalClose ==> s'.streams[id].state == Closed && Gone(s', id))
            && (was == Init ==> s'.streams[id].state == Reset && Gone(s', id))
            && (was == RemoteClose ==> s' == s)
  {
    TablesFlags(s, id, f);
    assert s.streams[id := s.streams[id]] == s.streams;
  }

  /** A close that was put off for want of window takes place with this update. */
  predicate ClosesNow(s: Session, id: nat, increment: nat) {
    && id in s.streams && increment <= MAX_STREAM_WINDOW && Raise(s.streams[id].sendWindow, increment) > 0
    && id in s.clients && s.clients[id].pendingClose
  }

  /** FIN in a WINDOW_UPDATE, which may also set off a close that was put off. */
  lemma FinInWindow(s: Session, id: nat, f: Flags, increment: nat)
    requires Tables(s) && id in s.registered && f.fin && !f.rst && !f.syn
    ensures var s', was := ReceiveWindowUpdate(s, id, f, increment), s.streams[id].state;
            && id in s'.streams
            && (Opened(was) && !ClosesNow(s, id, increment) ==>
                  s'.streams[id].state == RemoteClose && id in s'.registered && s'.clients == s.clients)
            && (Opened(was) && ClosesNow(s, id, increment) ==> s'.streams[id].state == Closed && Gone(s', id))
            && (was == LocalClose ==> s'.streams[id].state == Closed && Gone(s', id))
            && (was == Init ==> s'.streams[id].state == Reset && Gone(s', id))
            && (was == RemoteClose ==> s' == GoAway(s))
  {
    TablesFlags(s, id, f);
    assert s.streams[id := s.streams[id]] == s.streams;
  }

  // ---- Closing from this side ----

  function FinFrame(id: nat): Frame {
    Frame(WINDOW_UPDATE, Flags(false, false, true, false), id, 0, [])
  }

  /** A close writes one FIN on a stream that was announced and is not over; the second one deletes it. */
  lemma CloseWrites(s: Session, id: nat)
    requires id in s.streams && id != 0
    ensures var s', was := Close(s, id), s.streams[id].state;
            && id in s'.streams
            && (Opened(was) ==>
                  && s'.out == s.out + [FinFrame(id)] && s'.streams[id] == s.streams[id].(state := LocalClose)
                  && s'.registered == s.registered && s'.clients == s.clients)
            && (was in {LocalClose, RemoteClose} ==>
                  && s'.out == s.out + [FinFrame(id)] && s'.streams[id] == s.streams[id].(state := Closed)
                  && Gone(s', id))
            && (was in {Init, Closed, Reset} ==> s' == s)
  {}

  /** A hang-up closes at once if there is window, and otherwise only marks the client. */
  lemma HangUpCloses(s: Session, id: nat)
    requires Tables(s) && id in s.clients
    ensures var s' := Disconnect(s, id);
            && (s.streams[id].sendWindow > 0 ==>
                  && s'.out == Close(s, id).out && s'.streams == Close(s, id).streams
                  && s'.registered == Close(s, id).registered
                  && (id in s'.clients ==> s'.clients[id].pendingClose == s.clients[id].pendingClose))
            && (s.streams[id].sendWindow == 0 ==>
                  && s'.out == s.out && s'.streams == s.streams && s'.registered == s.registered
                  && id in s'.clients && s'.clients[id].pendingClose)
  {}

  /** An update that opens the window carries out a close that was put off. */
  lemma PendingCloses(s: Session, id: nat, f: Flags, increment: nat)
    requires Tables(s) && id in s.clients && s.clients[id].pendingClose && s.streams[id].sendWindow == 0
    requires !f.syn && !f.fin && !f.rst && 0 < increment <= MAX_STREAM_WINDOW && s.streams[id].state != Init
    ensures var s' := ReceiveWindowUpdate(s, id, f, increment);
            && s'.out == s.out + [FinFrame(id)]
            && (if Opened(s.streams[id].state) then id in s'.streams && s'.streams[id].state == LocalClose
                else Gone(s', id))
  {
    TablesFlags(s, id, f);
  }

  /**
   When the local side hangs up on a used-up window, whatever other streams do meanwhile, the next update with
   a positive increment writes the FIN that was put off.
   */
  lemma PutOffCloseHappens(s: Session, id: nat, es: seq<Event>, f: Flags, increment: nat)
    requires Tables(s) && id in s.clients && s.streams[id].sendWindow == 0 && s.streams[id].state != Init
    requires Runs(Disconnect(s, id), es) && !Concerns(Disconnect(s, id), es, id)
    requires !f.syn && !f.fin && !f.rst && 0 < increment <= MAX_STREAM_WINDOW
    ensures var u := Run(Disconnect(s, id), es);
            ReceiveWindowUpdate(u, id, f, increment).out == u.out + [FinFrame(id)]
  {
    var u0 := Disconnect(s, id);
    HangUpCloses(s, id);
    TablesStep(s, EvDisconnect(id));
    UnnamedIsUntouched(u0, es, id);
    TablesRun(u0, es);
    PendingCloses(Run(u0, es), id, f, increment);
  }

  // ---- What else is written and reported ----

  /** The result of a write, case by case, and the one frame of a write that sends. */
  lemma WriteOutcome(s: Session, id: nat, src: Bytes, hasOut: bool)
    requires id in s.streams
    ensures var (s', w) := Write(s, id, src, hasOut);
            var st := s.streams[id];
            var n := Min(Min(|src|, st.sendWindow), 256 * 1024);
            var flags := Flags(st.state == Init, st.state == SynReceived, false, false);
            && (w == Error(-1) <==> Dead(st.state))
            && (w == Error(-2) <==> !Dead(st.state) && n > 0 && !hasOut)
            && (w.Error? ==> w.code in {-1, -2})
            && (w.Sent? ==> w.n == n && s'.out == s.out + if n == 0 then [] else [Frame(DATA, flags, id, n, src[..n])])
            && (w.Error? ==> s'.out == s.out)
  {}

  /** How a payload was dealt with, as far as `process_data` knows. */
  lemma TakenMeans(s: Session, id: nat, f: Flags, length: nat, short: bool)
    requires Tables(s) && id in s.registered
    ensures var taken, st := ReceiveData(s, id, f, length, short).1, s.streams[id];
            && (taken == Untouched <==>
                  (f.fin && st.state == RemoteClose) || FlagsRetire(st.state, f) || length > st.recvWindow)
            && (taken == Skipped ==> IsSevered(s, id) && length > 0)
            && (taken == Short ==> short && !IsSevered(s, id))
            && (taken == All ==> if IsSevered(s, id) then length == 0 else !short)
  {
    FlagsLeave(s, id, f);
    TablesFlags(s, id, f);
  }

  /** A payload that the local side takes only in part resets the stream towards the peer. */
  lemma ShortResets(s: Session, id: nat, f: Flags, length: nat)
    requires Tables(s) && id in s.registered && ReceiveData(s, id, f, length, true).1 == Short
    ensures var s' := ReceiveData(s, id, f, length, true).0;
            && s'.out == s.out + [Frame(WINDOW_UPDATE, Flags(false, false, false, true), id, 0, [])]
            && id in s'.streams && s'.streams[id].state == LocalClose
            && s'.streams[id].recvWindow == s.streams[id].recvWindow - length
  {
    TablesFlags(s, id, f);
  }

  /** The session gives up exactly on flags that are refused and on an increment out of range. */
  lemma GoAwayIff(s: Session, id: nat, f: Flags, increment: nat)
    requires Tables(s)
    ensures ReceiveWindowUpdate(s, id, f, increment).out == s.out + [Frame(GO_AWAY, ZERO, 0, 1, [])] <==>
            && !f.syn && id in s.registered
            && ((f.fin && s.streams[id].state == RemoteClose) ||
                (!FlagsRetire(s.streams[id].state, f) && increment > 8 * 1024 * 1024))
  {
    if id in s.registered {
      FlagsLeave(s, id, f);
      TablesFlags(s, id, f);
      GiveUpIsNew(s.out, FinFrame(id));
    }
    assert s.out + [Frame(GO_AWAY, ZERO, 0, 1, [])] != s.out;
  }

  lemma GiveUpIsNew(out: seq<Frame>, f: Frame)
    requires f.kind != GO_AWAY
    ensures out + [f] != out + [Frame(GO_AWAY, ZERO, 0, 1, [])]
  {
    assert (out + [f])[|out|] != (out + [Frame(GO_AWAY, ZERO, 0, 1, [])])[|out|];
  }

  /** A PING that asks is answered with its own number; one that answers is not. */
  lemma PingAnswered(s: Session, f: Flags, pingId: nat)
    ensures AnswerPing(s, f, pingId) ==
            if f.syn then s.(out := s.out + [Frame(PING, Flags(false, true, false, false), 0, pingId, [])]) else s
  {}

  // ---- Who leaves the tables, and when ----

  /** Flags after which the stream is deleted. */
  predicate FlagsRetire(state: StreamState, f: Flags) {
    if f.rst then !(f.fin && state == RemoteClose) else f.fin && state in {LocalClose, Init}
  }

  /** The flags of a frame leave the stream half closed from both sides but for the second FIN of this side. */
  predicate HalfClosedBy(state: StreamState, f: Flags) {
    state in {LocalClose, RemoteClose} || (f.fin && Opened(state))
  }

  predicate Retires(s: Session, e: Event, id: nat)
    requires id in s.streams
  {
    var state := s.streams[id].state;
    match e
    case EvDelete(k) => k == id
    case EvClose(k) => k == id && state in {LocalClose, RemoteClose}
    case EvDisconnect(k) => k == id && state in {LocalClose, RemoteClose} && s.streams[id].sendWindow > 0
    case EvFlags(k, f) => k == id && FlagsRetire(state, f)
    case EvData(k, f, _, _) => k == id && FlagsRetire(state, f)
    case EvWindow(k, f, increment) =>
      && k == id && !f.syn
      && (FlagsRetire(state, f) ||
          (!(f.fin && state == RemoteClose) && HalfClosedBy(state, f) && ClosesNow(s, id, increment)))
    case _ => false
  }

  lemma FlagsLeave(s: Session, id: nat, f: Flags)
    requires Tables(s) && id in s.registered
    ensures id !in ApplyFlags(s, id, f).0.registered <==> FlagsRetire(s.streams[id].state, f)
    ensures ApplyFlags(s, id, f).1 <==> !(f.fin && s.streams[id].state == RemoteClose)
  {}

  lemma WindowLeaves(s: Session, id: nat, f: Flags, increment: nat)
    requires Tables(s) && id in s.registered
    ensures id !in ReceiveWindowUpdate(s, id, f, increment).registered <==>
            Retires(s, EvWindow(id, f, increment), id)
  {
    FlagsLeave(s, id, f);
    TablesFlags(s, id, f);
  }

  lemma DataLeaves(s: Session, id: nat, f: Flags, length: nat, short: bool)
    requires Tables(s) && id in s.registered
    ensures id !in ReceiveData(s, id, f, length, short).0.registered <==> FlagsRetire(s.streams[id].state, f)
  {
    FlagsLeave(s, id, f);
    TablesFlags(s, id, f);
  }

  /**
   A registered stream leaves the tables exactly by a deletion of its id, a reset that is honoured, a second
   FIN from either side, or a FIN before it was ever announced.
   */
  lemma LeavesIff(s: Session, e: Event, id: nat)
    requires Tables(s) && Enabled(s, e) && id in s.registered
    ensures id !in Step(s, e).registered <==> Retires(s, e, id)
    ensures id !in Step(s, e).registered ==> id !in Step(s, e).clients
  {
    TablesStep(s, e);
    StepTouches(s, e);
    if Subject(s, e) == id {
      match e
      case EvOpen(_) => NewIdIsFree(s);
      case EvData(_, f, length, short) => DataLeaves(s, id, f, length, short);
      case EvWindow(_, f, increment) => WindowLeaves(s, id, f, increment);
      case EvFlags(_, f) => FlagsLeave(s, id, f);
      case _ =>
    } else {
      assert SameAt(s, Step(s, e), id);
    }
  }

  // ---- FIN both ways ends a stream, in every run ----

  predicate FinWritten(out: seq<Frame>, id: nat) {
    out != [] && (FinWritten(out[..|out| - 1], id) || (out[|out| - 1].id == id && out[|out| - 1].flags.fin))
  }

  /** The step brings a FIN of the peer to a registered stream. */
  predicate BringsFin(s: Session, e: Event, id: nat) {
    && id in s.registered
    && match e
       case EvFlags(k, f) => k == id && f.fin
       case EvData(k, f, _, _) => k == id && f.fin
       case EvWindow(k, f, _) => k == id && f.fin && !f.syn
       case _ => false
  }

  predicate FinReceived(s: Session, es: seq<Event>, id: nat)
    requires Runs(s, es)
    decreases es
  {
    es != [] && (BringsFin(s, es[0], id) || FinReceived(Step(s, es[0]), es[1..], id))
  }

  /** While a stream is registered at most one side has ended it, and its state says so. */
  predicate FinInv(s: Session, id: nat, seen: bool) {
    && (FinWritten(s.out, id) || seen ==> id in s.streams)
    && (id in s.registered && id in s.streams ==>
          && (FinWritten(s.out, id) ==> s.streams[id].state == LocalClose && !seen)
          && (seen ==> s.streams[id].state in {RemoteClose, LocalClose})
          && (s.streams[id].state == RemoteClose ==> seen))
  }

  lemma WrittenMove(s: Session, s': Session, k: nat, f: Option<Frame>, id: nat)
    requires Moves(s, s', k, f)
    ensures FinWritten(s'.out, id) <==> FinWritten(s.out, id) || (f.Some? && id == k && f.value.flags.fin)
  {
    if f.Some? {
      assert s'.out[..|s'.out| - 1] == s.out;
    } else {
      assert s'.out == s.out;
    }
  }

  /** What a move of the stream itself must satisfy. */
  predicate FinMove(s: Session, s': Session, id: nat, f: Option<Frame>, fin: bool)
    requires id in s.streams && id in s'.streams
  {
    var was, now := s.streams[id].state, s'.streams[id].state;
    && (id in s'.registered ==> id in s.registered)
    && (id in s'.registered ==>
          && (was == LocalClose ==> now == LocalClose && !fin && !(f.Some? && f.value.flags.fin))
          && (was == RemoteClose ==> now in {RemoteClose, LocalClose} && !(f.Some? && f.value.flags.fin))
          && (was !in {LocalClose, RemoteClose} ==>
                && (fin <==> now == RemoteClose)
                && (f.Some? && f.value.flags.fin ==> now == LocalClose && !fin)))
  }

  lemma FinKept(s: Session, s': Session, id: nat, f: Option<Frame>, seen: bool, fin: bool)
    requires FinInv(s, id, seen) && Moves(s, s', id, f) && FinMove(s, s', id, f, fin)
    ensures FinInv(s', id, seen || fin)
  {
    WrittenMove(s, s', id, f, id);
  }

  lemma {:induction false} WrittenElsewhere(a: seq<Frame>, b: seq<Frame>, id: nat)
    requires a <= b && forall i :: |a| <= i < |b| ==> b[i].id != id
    ensures FinWritten(b, id) <==> FinWritten(a, id)
    decreases |b|
  {
    if |a| == |b| {
      assert a == b;
    } else {
      var c := b[..|b| - 1];
      assert a <= c;
      WrittenElsewhere(a, c, id);
    }
  }

  lemma FinElsewhere(s: Session, e: Event, id: nat, seen: bool)
    requires Tables(s) && Enabled(s, e) && FinInv(s, id, seen) && id != 0 && Subject(s, e) != id
    ensures FinInv(Step(s, e), id, seen) && !BringsFin(s, e, id)
  {
    StepTouches(s, e);
    assert SameAt(s, Step(s, e), id);
    WrittenElsewhere(s.out, Step(s, e).out, id);
  }

  lemma FinClose(s: Session, id: nat, seen: bool)
    requires id in s.streams && id != 0 && FinInv(s, id, seen)
    ensures FinInv(Close(s, id), id, seen)
  {
    CloseMove(s, id);
    FinKept(s, Close(s, id), id, Wrote(s, Close(s, id)), seen, false);
  }

  lemma FinFlags(s: Session, id: nat, f: Flags, seen: bool)
    requires Tables(s) && id in s.registered && FinInv(s, id, seen)
    ensures FinInv(ApplyFlags(s, id, f).0, id, seen || f.fin)
  {
    FlagsMove(s, id, f);
    var s' := ApplyFlags(s, id, f).0;
    if s.streams[id].state == RemoteClose {
      FinKept(s, s', id, None, seen, false);
    } else {
      FinKept(s, s', id, None, seen, f.fin);
    }
  }

  lemma FinData(s: Session, id: nat, f: Flags, length: nat, short: bool, seen: bool)
    requires Tables(s) && id in s.registered && FinInv(s, id, seen)
    ensures FinInv(ReceiveData(s, id, f, length, short).0, id, seen || f.fin)
  {
    FinFlags(s, id, f, seen);
    TablesFlags(s, id, f);
    var (s1, ok) := ApplyFlags(s, id, f);
    if ok && id in s1.registered && length <= s1.streams[id].recvWindow {
      var s2 := Deliver(s1, id, length, short);
      DeliverMove(s1, id, length, short);
      FinKept(s1, s2, id, Wrote(s1, s2), seen || f.fin, false);
    }
  }

  lemma FinWindow(s: Session, id: nat, f: Flags, increment: nat, seen: bool)
    requires Tables(s) && id in s.registered && id != 0 && !f.syn && FinInv(s, id, seen)
    ensures FinInv(ReceiveWindowUpdate(s, id, f, increment), id, seen || f.fin)
  {
    FinFlags(s, id, f, seen);
    var s1, s2 := WindowMoves(s, id, f, increment);
    if AcceptsIncrement(s, id, f, increment) {
      FinKept(s1, s2, id, None, seen || f.fin, false);
      FinClose(s2, id, seen || f.fin);
    } else {
      WrittenElsewhere(s1.out, GoAway(s1).out, id);
    }
  }

  lemma FinWrite(s: Session, id: nat, src: Bytes, hasOut: bool, seen: bool)
    requires id in s.streams && FinInv(s, id, seen)
    ensures FinInv(Write(s, id, src, hasOut).0, id, seen)
  {
    WriteMove(s, id, src, hasOut);
    var s' := Write(s, id, src, hasOut).0;
    FinKept(s, s', id, Wrote(s, s'), seen, false);
  }

  lemma FinAnnounce(s: Session, id: nat, seen: bool)
    requires id in s.streams && FinInv(s, id, seen)
    ensures FinInv(Announce(s, id), id, seen)
  {
    AnnounceMove(s, id);
    FinKept(s, Announce(s, id), id, Wrote(s, Announce(s, id)), seen, false);
  }

  lemma FinStep(s: Session, e: Event, id: nat, seen: bool)
    requires Tables(s) && Enabled(s, e) && FinInv(s, id, seen) && id != 0
    ensures FinInv(Step(s, e), id, seen || BringsFin(s, e, id))
  {
    if Subject(s, e) != id {
      FinElsewhere(s, e, id, seen);
    } else {
      match e
      case EvOpen(_) => NewIdIsFree(s);
      case EvAnnounce(_) => FinAnnounce(s, id, seen);
      case EvWrite(_, src, hasOut) => FinWrite(s, id, src, hasOut, seen);
      case EvClose(_) => FinClose(s, id, seen);
      case EvDisconnect(_) => FinClose(Sever(s, id), id, seen);
      case EvFlags(_, f) => FinFlags(s, id, f, seen);
      case EvData(_, f, length, short) => FinData(s, id, f, length, short, seen);
      case EvWindow(_, f, increment) =>
        if !f.syn && id in s.registered {
          FinWindow(s, id, f, increment, seen);
        }
      case _ =>
    }
  }

  lemma {:induction false} FinRun(s: Session, es: seq<Event>, id: nat, seen: bool)
    requires Tables(s) && Runs(s, es) && FinInv(s, id, seen) && id != 0
    ensures FinInv(Run(s, es), id, seen || FinReceived(s, es, id))
    decreases es
  {
    if es == [] {
    } else {
      TablesStep(s, es[0]);
      FinStep(s, es[0], id, seen);
      FinRun(Step(s, es[0]), es[1..], id, seen || BringsFin(s, es[0], id));
    }
  }

  /**
   In every run, a stream whose FIN has been written and to which the peer's FIN has come, in either order, is
   in neither table; and while it is registered its state tells which of the two has happened.
   */
  lemma FinBothWays(es: seq<Event>, id: nat)
    requires Runs(Start(), es) && id != 0
    ensures var s := Run(Start(), es);
            && (FinWritten(s.out, id) && FinReceived(Start(), es, id) ==> Gone(s, id))
            && (id in s.registered ==>
                  && id in s.streams
                  && (s.streams[id].state == RemoteClose ==> FinReceived(Start(), es, id))
                  && (FinReceived(Start(), es, id) ==> s.streams[id].state in {RemoteClose, LocalClose})
                  && (FinWritten(s.out, id) ==> s.streams[id].state == LocalClose))
  {
    FinRun(Start(), es, id, false);
    TablesRun(Start(), es);
  }
}
