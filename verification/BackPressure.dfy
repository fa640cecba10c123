/**
 The sending half of an encrypted proxy over the multiplexer (src/proxy_tcp.c, `tcp_proxy_c2s_cb`): encrypt
 what the local service wrote, send as much as the window allows, stash the rest as ciphertext.
 */
module BackPressure {
  import opened Bytes
  import opened Cfb
  import opened MuxFrames
  import opened TcpMux
  import opened TcpMuxSafety
  import L = TcpMuxLifecycle
  import P = ProxyCrypto

  /**
   `pending` is `enc_pending`, and `reading` says whether the local connection is being read. `base` is what
   the stream had carried before the tunnel started, and `plain` everything taken from the local service
   since; both are bookkeeping.
   */
  datatype Tunnel = Tunnel(s: Session, id: nat, enc: P.Encoder, pending: Bytes, reading: bool, open: bool,
                           base: Bytes, plain: Bytes)

  /** The send loop: the session, what is left, and whether the stream still accepts data. */
  function Flush(s: Session, id: nat, data: Bytes): (r: (Session, Bytes, bool))
    requires id in s.streams
    ensures id in r.0.streams && r.0.clients == s.clients
    decreases |data|
  {
    if data == [] then (s, [], true)
    else
      var (s', w) := Write(s, id, data, true);
      if w.Error? then (s', data, false)
      else if w.n == 0 then (s', data, true)
      else Flush(s', id, data[w.n..])
  }

  /** One read callback with `input` in the source buffer. */
  function Callback(e: BlockFunction, t: Tunnel, input: Bytes): Tunnel
    requires Usable(e, t.enc.st) && t.id in t.s.streams
  {
    if input == [] || !t.open then t
    else
      var (enc, out) := P.Encode(e, t.enc, input);
      var (s, rest, ok) := Flush(t.s, t.id, t.pending + out);
      var t' := t.(enc := enc, plain := t.plain + input);
      if ok then t'.(s := s, pending := rest, reading := t.reading && rest == [])
      else t'.(s := Delete(s, t.id), pending := [], open := false)
  }

  /** The local service hangs up with `input` unread: it goes out as it is, the stream is closed, the tunnel with it. */
  function HangUp(t: Tunnel, input: Bytes): Tunnel
    requires t.id in t.s.streams && t.id in t.s.clients
  {
    t.(s := Disconnect(Flush(t.s, t.id, input).0, t.id), open := false)
  }

  /** Sent so far plus stashed is the IV once and the encryption of all plaintext taken so far. */
  ghost predicate Exact(e: BlockFunction, t: Tunnel) {
    && Tables(t.s) && t.id in t.s.streams && t.id != 0
    && P.HasEncoded(e, t.enc, t.plain)
    && (t.open ==>
          && t.base <= SentPayload(t.s.out, t.id)
          && SentPayload(t.s.out, t.id) + t.pending == t.base + P.Stream(e, t.enc.iv, t.plain))
  }

  /** One write fails exactly on a dead stream, and sends nothing exactly when the window is used up. */
  lemma WriteVerdict(s: Session, id: nat, data: Bytes)
    requires id in s.streams && data != []
    ensures var (s', w) := Write(s, id, data, true);
            && id in s'.streams
            && (w.Error? <==> Dead(s.streams[id].state)) && (w.Error? ==> s' == s)
            && (w.Sent? ==>
                  && (w.n == 0 <==> s.streams[id].sendWindow == 0) && (w.n == 0 ==> s' == s)
                  && !Dead(s'.streams[id].state))
  {}

  lemma WritePayload(s: Session, id: nat, data: Bytes)
    requires id in s.streams && Write(s, id, data, true).1.Sent?
    ensures var (s', w) := Write(s, id, data, true);
            SentPayload(s'.out, id) == SentPayload(s.out, id) + data[..w.n]
  {
    AccountWrite(s, EvWrite(id, data, true), id);
  }

  /** Sending stops only on a dead stream, an empty buffer, or a used-up window. */
  lemma {:induction false} FlushStops(s: Session, id: nat, data: Bytes)
    requires Tables(s) && id in s.streams && id != 0
    ensures var (s', rest, ok) := Flush(s, id, data);
            && Tables(s')
            && (ok && rest != [] ==> s'.streams[id].sendWindow == 0)
            && (ok <==> data == [] || !Dead(s.streams[id].state))
    decreases |data|
  {
    if data == [] {
    } else {
      WriteVerdict(s, id, data);
      TablesWrite(s, id, data, true);
      var (s', w) := Write(s, id, data, true);
      if w.Sent? && w.n > 0 {
        FlushStops(s', id, data[w.n..]);
      }
    }
  }

  /** Moving the first `n` bytes of the data loses none. */
  lemma Rejoin(was: Bytes, data: Bytes, n: nat, now: Bytes)
    requires n <= |data| && now == was + data[..n]
    ensures now + data[n..] == was + data
  {
    Assoc(was, data[..n], data[n..]);
    assert data[..n] + data[n..] == data;
  }

  lemma {:induction false} FlushPayload(s: Session, id: nat, data: Bytes)
    requires id in s.streams
    ensures var (s', rest, _) := Flush(s, id, data);
            |rest| <= |data| && SentPayload(s'.out, id) + rest == SentPayload(s.out, id) + data
    decreases |data|
  {
    if data == [] {
    } else {
      WriteVerdict(s, id, data);
      var (s', w) := Write(s, id, data, true);
      if w.Sent? && w.n > 0 {
        FlushPayload(s', id, data[w.n..]);
        WritePayload(s, id, data);
        Rejoin(SentPayload(s.out, id), data, w.n, SentPayload(s'.out, id));
      }
    }
  }

  /** Sending moves bytes from the buffer to the stream, in order, and leaves some only when the window is used up. */
  lemma FlushMoves(s: Session, id: nat, data: Bytes)
    requires Tables(s) && id in s.streams && id != 0
    ensures var (s', rest, ok) := Flush(s, id, data);
            && Tables(s') && id in s'.streams
            && SentPayload(s'.out, id) + rest == SentPayload(s.out, id) + data
            && |rest| <= |data|
            && (ok && rest != [] ==> s'.streams[id].sendWindow == 0)
            && (ok <==> data == [] || !Dead(s.streams[id].state))
  {
    FlushStops(s, id, data);
    FlushPayload(s, id, data);
  }

  /** What the stream had carried stays in front. */
  lemma StillBehind(base: Bytes, was: Bytes, data: Bytes, rest: Bytes, now: Bytes)
    requires base <= was && now + rest == was + data && |rest| <= |data|
    ensures base <= now
  {
    assert now == (was + data)[..|now|];
  }

  lemma CallbackExact(e: BlockFunction, t: Tunnel, input: Bytes)
    requires Exact(e, t)
    ensures Exact(e, Callback(e, t, input))
  {
    if input != [] && t.open {
      P.EncodeExtends(e, t.enc, t.plain, input);
      var (enc, out) := P.Encode(e, t.enc, input);
      FlushMoves(t.s, t.id, t.pending + out);
      Assoc(SentPayload(t.s.out, t.id), t.pending, out);
      Assoc(t.base, P.Stream(e, t.enc.iv, t.plain), out);
      StillBehind(t.base, SentPayload(t.s.out, t.id), t.pending + out, Flush(t.s, t.id, t.pending + out).1,
                  SentPayload(Flush(t.s, t.id, t.pending + out).0.out, t.id));
    }
  }

  // ---- Runs ----

  /** A read callback, the hang-up, or anything else the session does except another write on this stream. */
  datatype Action = Input(bytes: Bytes) | Eof(rest: Bytes) | Other(event: Event)

  predicate Allowed(t: Tunnel, a: Action) {
    match a
    case Input(_) => true
    case Eof(_) => t.open && t.id in t.s.clients
    case Other(event) => Enabled(t.s, event) && !(event.EvWrite? && event.id == t.id)
  }

  function Next(e: BlockFunction, t: Tunnel, a: Action): Tunnel
    requires Usable(e, t.enc.st) && t.id in t.s.streams && Allowed(t, a)
  {
    match a
    case Input(bytes) => Callback(e, t, bytes)
    case Eof(rest) => HangUp(t, rest)
    case Other(event) =>
      var wake := event.EvWindow? && event.id == t.id && Wakes(t.s, t.id, event.flags, event.increment);
      t.(s := Step(t.s, event), reading := t.reading || wake)
  }

  lemma NextExact(e: BlockFunction, t: Tunnel, a: Action)
    requires Exact(e, t) && Allowed(t, a)
    ensures Exact(e, Next(e, t, a))
  {
    match a
    case Input(bytes) => CallbackExact(e, t, bytes);
    case Eof(rest) => HangUpSends(t, rest);
    case Other(event) =>
      TablesStep(t.s, event);
      AccountStep(t.s, event, t.id);
      StreamStays(t.s, event, t.id);
      assert SentPayload(t.s.out, t.id) + [] == SentPayload(t.s.out, t.id);
  }

  lemma StreamStays(s: Session, e: Event, id: nat)
    requires Tables(s) && Enabled(s, e) && id in s.streams
    ensures id in Step(s, e).streams
  {
    if L.Subject(s, e) != id {
      L.StepTouches(s, e);
      assert L.SameAt(s, Step(s, e), id);
    } else if e.EvWindow? && !e.flags.syn && e.id in s.registered {
      var s1, s2 := WindowMoves(s, e.id, e.flags, e.increment);
    }
  }

  ghost predicate Possible(e: BlockFunction, t: Tunnel, actions: seq<Action>)
    decreases actions
  {
    actions == [] ||
    (Usable(e, t.enc.st) && t.id in t.s.streams && Allowed(t, actions[0])
     && Possible(e, Next(e, t, actions[0]), actions[1..]))
  }

  ghost function After(e: BlockFunction, t: Tunnel, actions: seq<Action>): Tunnel
    requires Possible(e, t, actions)
    decreases actions
  {
    if actions == [] then t else After(e, Next(e, t, actions[0]), actions[1..])
  }

  /**
   Over every sequence of read callbacks, window updates and other activity: while the tunnel is open
   nothing is lost, reordered or encrypted twice.
   */
  lemma {:induction false} BackPressureExact(e: BlockFunction, t: Tunnel, actions: seq<Action>)
    requires Exact(e, t) && Possible(e, t, actions)
    ensures Exact(e, After(e, t, actions))
    decreases actions
  {
    if actions == [] {
    } else {
      NextExact(e, t, actions[0]);
      BackPressureExact(e, Next(e, t, actions[0]), actions[1..]);
    }
  }

  lemma {:induction false} SameTunnel(e: BlockFunction, t: Tunnel, actions: seq<Action>)
    requires Exact(e, t) && Possible(e, t, actions)
    ensures After(e, t, actions).id == t.id && After(e, t, actions).base == t.base
    ensures After(e, t, actions).enc.iv == t.enc.iv
    decreases actions
  {
    if actions == [] {
    } else {
      NextExact(e, t, actions[0]);
      SameTunnel(e, Next(e, t, actions[0]), actions[1..]);
    }
  }

  /** A tunnel at its start: a fresh encoder on a stream that has carried `base`. */
  ghost predicate Starting(e: BlockFunction, t: Tunnel) {
    && Tables(t.s) && t.id in t.s.streams && t.id != 0 && IsBlockFunction(e)
    && t == Tunnel(t.s, t.id, P.NewEncoder(t.enc.iv), [], true, true, SentPayload(t.s.out, t.id), [])
  }

  /**
   End to end: however the peer cuts what this side has sent, it decodes a prefix of the plaintext taken,
   and all of it when nothing is stashed.
   */
  lemma PeerDecodesPrefix(e: BlockFunction, t: Tunnel, actions: seq<Action>, chunks: seq<Bytes>)
    requires Starting(e, t) && Possible(e, t, actions)
    requires var u := After(e, t, actions);
             u.open && SentPayload(u.s.out, t.id) == t.base + Concat(chunks)
    ensures var u := After(e, t, actions);
            var got := P.DecodeAll(e, P.NewDecoder(), [], chunks).2;
            got <= u.plain && (u.pending == [] ==> got == u.plain)
  {
    assert t.base + [] == t.base;
    BackPressureExact(e, t, actions);
    SameTunnel(e, t, actions);
    var u := After(e, t, actions);
    var sent := Concat(chunks);
    var got := P.DecodeAll(e, P.NewDecoder(), [], chunks).2;
    P.DecodeAllIsDecoded(e, P.NewDecoder(), [], [], chunks);
    assert [] + sent == sent && [] + got == got;
    assert sent + u.pending == P.Stream(e, t.enc.iv, u.plain) by {
      DropPrefix(t.base + sent, t.base, u.pending, P.Stream(e, t.enc.iv, u.plain));
      assert (t.base + sent)[|t.base|..] == sent;
    }
    P.CutStreamDecoded(e, u.enc, u.plain, sent, u.pending, [], 0);
    assert sent + [][..0] == sent;
  }

  // ---- What the stash waits for ----

  /** Nothing a peer or another stream does moves the stash, and nothing at all once the tunnel is closed. */
  predicate Idle(t: Tunnel, actions: seq<Action>) {
    !t.open || forall i :: 0 <= i < |actions| ==> actions[i].Other? || actions[i] == Input([])
  }

  /** Window updates do not move the stash: only new input from the local service does. */
  lemma {:induction false} StashWaitsForInput(e: BlockFunction, t: Tunnel, actions: seq<Action>)
    requires Exact(e, t) && Possible(e, t, actions) && Idle(t, actions)
    ensures var u := After(e, t, actions);
            u.pending == t.pending && SentPayload(u.s.out, t.id) == SentPayload(t.s.out, t.id)
    decreases actions
  {
    if actions == [] {
    } else {
      var a := actions[0];
      NextExact(e, t, a);
      if a.Other? {
        AccountStep(t.s, a.event, t.id);
        assert SentPayload(t.s.out, t.id) + [] == SentPayload(t.s.out, t.id);
      } else {
        assert Next(e, t, a) == t;
      }
      assert Idle(Next(e, t, a), actions[1..]);
      StashWaitsForInput(e, Next(e, t, a), actions[1..]);
    }
  }

  // ---- Reading is resumed ----

  /** The client is gone, or only waits to be closed. */
  predicate Leaving(s: Session, id: nat) {
    id in s.clients ==> s.clients[id].pendingClose
  }

  /** Reading is off only while the window is used up, or for good. */
  predicate PausedWithCause(t: Tunnel) {
    t.id in t.s.streams && (t.reading || t.s.streams[t.id].sendWindow == 0 || Leaving(t.s, t.id))
  }

  lemma LeavingClosed(s: Session, k: nat, id: nat)
    requires k in s.streams && Leaving(s, id)
    ensures Leaving(Close(s, k), id)
  {}

  lemma LeavingFrame(s: Session, e: Event, id: nat)
    requires Tables(s) && Enabled(s, e) && (e.EvData? || e.EvWindow?) && Leaving(s, id)
    ensures Leaving(Step(s, e), id)
  {
    if e.id in s.registered {
      var s1 := ApplyFlags(s, e.id, e.flags).0;
      assert Leaving(s1, id);
      if e.EvWindow? && !e.flags.syn {
        var _, s2 := WindowMoves(s, e.id, e.flags, e.increment);
        if AcceptsIncrement(s, e.id, e.flags, e.increment) {
          LeavingClosed(s2, e.id, id);
        }
      }
    }
  }

  lemma LeavingStays(s: Session, e: Event, id: nat)
    requires Tables(s) && Enabled(s, e) && id in s.streams && Leaving(s, id)
    ensures Leaving(Step(s, e), id)
  {
    match e
    case EvOpen(_) => OpenedId(s);
    case EvClose(k) => LeavingClosed(s, k, id);
    case EvDisconnect(k) => LeavingClosed(Sever(s, k), k, id);
    case EvData(_, _, _, _) => LeavingFrame(s, e, id);
    case EvWindow(_, _, _) => LeavingFrame(s, e, id);
    case _ =>
  }

  /** Only a WINDOW_UPDATE raises a window. */
  lemma WindowStays(s: Session, e: Event, id: nat)
    requires Tables(s) && Enabled(s, e) && id in s.streams
    requires !(e.EvWrite? && e.id == id) && !(e.EvWindow? && e.id == id)
    ensures id in Step(s, e).streams && Step(s, e).streams[id].sendWindow == s.streams[id].sendWindow
  {
    StreamStays(s, e, id);
    match e
    case EvOpen(_) => OpenedId(s);
    case EvDelete(_) =>
    case EvPing(_, _) =>
    case EvAnnounce(k) => AnnounceMove(s, k);
    case EvClose(k) => CloseMove(s, k);
    case EvEstablish(_) =>
    case EvDisconnect(k) => CloseMove(Sever(s, k), k);
    case EvFlags(k, f) => FlagsMove(s, k, f);
    case EvWrite(k, src, hasOut) => WriteMove(s, k, src, hasOut);
    case EvData(k, f, length, short) =>
      FlagsMove(s, k, f);
      TablesFlags(s, k, f);
      var (s1, ok) := ApplyFlags(s, k, f);
      if ok && k in s1.registered && length <= s1.streams[k].recvWindow {
        DeliverMove(s1, k, length, short);
      }
    case EvWindow(k, f, increment) =>
      if !f.syn && k in s.registered {
        var s1, s2 := WindowMoves(s, k, f, increment);
        if AcceptsIncrement(s, k, f, increment) {
          CloseMove(s2, k);
        }
      }
  }

  /** A WINDOW_UPDATE that opens a used-up window wakes the local connection, unless the client is leaving. */
  lemma UpdateWakes(s: Session, id: nat, f: Flags, increment: nat)
    requires Tables(s) && id in s.streams && s.streams[id].sendWindow == 0 && !Leaving(s, id)
    requires !Wakes(s, id, f, increment)
    ensures var s' := ReceiveWindowUpdate(s, id, f, increment);
            id in s'.streams && (s'.streams[id].sendWindow == 0 || Leaving(s', id))
  {
    if !f.syn {
      FlagsMove(s, id, f);
      TablesFlags(s, id, f);
      var s1, s2 := WindowMoves(s, id, f, increment);
      if AcceptsIncrement(s, id, f, increment) {
        CloseMove(s2, id);
      }
    }
  }

  lemma NextPaused(e: BlockFunction, t: Tunnel, a: Action)
    requires Exact(e, t) && Allowed(t, a) && PausedWithCause(t)
    ensures Next(e, t, a).open ==> PausedWithCause(Next(e, t, a))
  {
    match a
    case Input(bytes) =>
      if bytes != [] && t.open {
        var out := P.Encode(e, t.enc, bytes).1;
        FlushStops(t.s, t.id, t.pending + out);
        FlushSends(t.s, t.id, t.pending + out);
      }
    case Eof(_) =>
    case Other(event) =>
      StreamStays(t.s, event, t.id);
      if Leaving(t.s, t.id) {
        LeavingStays(t.s, event, t.id);
      } else if event.EvWindow? && event.id == t.id {
        if !t.reading && !Wakes(t.s, t.id, event.flags, event.increment) {
          UpdateWakes(t.s, t.id, event.flags, event.increment);
        }
      } else if !t.reading {
        WindowStays(t.s, event, t.id);
      }
  }

  /** In every run of a tunnel, reading from the local service is off only while the window is used up. */
  lemma {:induction false} ReadingResumes(e: BlockFunction, t: Tunnel, actions: seq<Action>)
    requires Exact(e, t) && PausedWithCause(t) && Possible(e, t, actions)
    ensures After(e, t, actions).open ==> PausedWithCause(After(e, t, actions))
    decreases actions
  {
    if actions == [] {
    } else {
      NextExact(e, t, actions[0]);
      var u := Next(e, t, actions[0]);
      NextPaused(e, t, actions[0]);
      if u.open {
        ReadingResumes(e, u, actions[1..]);
      } else {
        StaysClosed(e, u, actions[1..]);
      }
    }
  }

  lemma {:induction false} StaysClosed(e: BlockFunction, t: Tunnel, actions: seq<Action>)
    requires Possible(e, t, actions) && !t.open
    ensures !After(e, t, actions).open
    decreases actions
  {
    if actions == [] {
    } else {
      StaysClosed(e, Next(e, t, actions[0]), actions[1..]);
    }
  }

  // ---- Reading is paused ----

  /** A tunnel that has had to stash is read only while there is window again. */
  predicate StashPauses(t: Tunnel) {
    t.id in t.s.streams && (t.reading && t.pending != [] ==> t.s.streams[t.id].sendWindow > 0)
  }

  /** An update never uses a window up, and one that wakes the reader has opened it. */
  lemma UpdateOpens(s: Session, id: nat, f: Flags, increment: nat)
    requires Tables(s) && id in s.streams
    ensures var s' := ReceiveWindowUpdate(s, id, f, increment);
            && id in s'.streams && s'.streams[id].sendWindow >= s.streams[id].sendWindow
            && (Wakes(s, id, f, increment) ==> s'.streams[id].sendWindow > 0)
  {
    if !f.syn && id in s.registered {
      FlagsMove(s, id, f);
      TablesFlags(s, id, f);
      var s1, s2 := WindowMoves(s, id, f, increment);
      if AcceptsIncrement(s, id, f, increment) {
        RaiseIsMin(s1.streams[id].sendWindow, increment);
        CloseMove(s2, id);
      }
    }
  }

  lemma NextStashPauses(e: BlockFunction, t: Tunnel, a: Action)
    requires Exact(e, t) && Allowed(t, a) && StashPauses(t)
    ensures Next(e, t, a).open ==> StashPauses(Next(e, t, a))
  {
    match a
    case Input(bytes) =>
      if bytes != [] && t.open {
        FlushStops(t.s, t.id, t.pending + P.Encode(e, t.enc, bytes).1);
      }
    case Eof(_) =>
    case Other(event) =>
      if event.EvWindow? && event.id == t.id {
        UpdateOpens(t.s, t.id, event.flags, event.increment);
      } else {
        WindowStays(t.s, event, t.id);
      }
  }

  lemma {:induction false} StashPausesRun(e: BlockFunction, t: Tunnel, actions: seq<Action>)
    requires Exact(e, t) && StashPauses(t) && Possible(e, t, actions)
    ensures After(e, t, actions).open ==> StashPauses(After(e, t, actions))
    decreases actions
  {
    if actions == [] {
    } else {
      NextExact(e, t, actions[0]);
      var u := Next(e, t, actions[0]);
      NextStashPauses(e, t, actions[0]);
      if u.open {
        StashPausesRun(e, u, actions[1..]);
      } else {
        StaysClosed(e, u, actions[1..]);
      }
    }
  }

  /**
   Back-pressure is applied exactly when it should be: in every run from its start, while a tunnel is open, holds
   a stash and its client is not leaving, the local service is read if and only if there is window.
   */
  lemma ReadingIff(e: BlockFunction, t: Tunnel, actions: seq<Action>)
    requires Starting(e, t) && Possible(e, t, actions)
    ensures var u := After(e, t, actions);
            && u.id in u.s.streams
            && (u.open && u.pending != [] && u.s.streams[u.id].sendWindow == 0 ==> !u.reading)
            && (u.open && u.pending != [] && !Leaving(u.s, u.id) ==>
                  (u.reading <==> u.s.streams[u.id].sendWindow > 0))
  {
    assert t.base + [] == t.base;
    BackPressureExact(e, t, actions);
    StashPausesRun(e, t, actions);
    ReadingResumes(e, t, actions);
  }

  // ---- Hanging up ----

  /** How many bytes the stream takes from the write loop: none when dead, otherwise up to the window. */
  function Room(s: Session, id: nat, data: Bytes): (n: nat)
    requires id in s.streams
    ensures n <= |data|
  {
    if Dead(s.streams[id].state) then 0 else Min(|data|, s.streams[id].sendWindow)
  }

  /** The frame size does not matter: the loop goes on until the window or the data is used up. */
  lemma {:induction false} FlushSends(s: Session, id: nat, data: Bytes)
    requires Tables(s) && id in s.streams && id != 0
    ensures |Flush(s, id, data).1| == |data| - Room(s, id, data)
    decreases |data|
  {
    if data == [] {
    } else {
      WriteVerdict(s, id, data);
      TablesWrite(s, id, data, true);
      WriteMove(s, id, data, true);
      var (s', w) := Write(s, id, data, true);
      if w.Sent? && w.n > 0 {
        FlushSends(s', id, data[w.n..]);
      }
    }
  }

  /** A hang-up puts exactly a raw prefix of the unread input on the stream, as much as the window allows. */
  lemma HangUpSends(t: Tunnel, input: Bytes)
    requires Tables(t.s) && t.id in t.s.streams && t.id != 0 && t.id in t.s.clients
    ensures var u := HangUp(t, input);
            && Tables(u.s) && t.id in u.s.streams
            && SentPayload(u.s.out, t.id) == SentPayload(t.s.out, t.id) + input[..Room(t.s, t.id, input)]
  {
    FlushStops(t.s, t.id, input);
    FlushSplits(t.s, t.id, input);
    var s := Flush(t.s, t.id, input).0;
    var now := SentPayload(s.out, t.id);
    TablesStep(s, EvDisconnect(t.id));
    AccountStep(s, EvDisconnect(t.id), t.id);
    StreamStays(s, EvDisconnect(t.id), t.id);
    assert now + [] == now;
  }

  /** The window that the write loop leaves. */
  lemma {:induction false} FlushWindow(s: Session, id: nat, data: Bytes)
    requires Tables(s) && id in s.streams && id != 0
    ensures var s' := Flush(s, id, data).0;
            && s'.streams[id].sendWindow == s.streams[id].sendWindow - Room(s, id, data)
            && (Dead(s.streams[id].state) ==> s' == s)
            && (!Dead(s.streams[id].state) ==> !Dead(s'.streams[id].state))
            && (s.streams[id].state != Init ==> s'.streams[id].state != Init)
    decreases |data|
  {
    if data == [] {
    } else {
      WriteVerdict(s, id, data);
      TablesWrite(s, id, data, true);
      WriteMove(s, id, data, true);
      var (s', w) := Write(s, id, data, true);
      if w.Sent? && w.n > 0 {
        FlushWindow(s', id, data[w.n..]);
      }
    }
  }

  /**
   A hang-up ends the stream of a client that was announced: with a FIN behind the raw bytes if they leave some
   window, and otherwise with a mark on the client that the next window update obeys.
   */
  lemma HangUpEnds(t: Tunnel, input: Bytes)
    requires Tables(t.s) && t.id in t.s.streams && t.id != 0 && t.id in t.s.clients
    requires t.s.streams[t.id].state != Init
    ensures var u, left := HangUp(t, input).s, t.s.streams[t.id].sendWindow - Room(t.s, t.id, input);
            && (left > 0 ==> u.out != [] && u.out[|u.out| - 1] == L.FinFrame(t.id))
            && (left == 0 ==> t.id in u.clients && u.clients[t.id].pendingClose)
  {
    FlushStops(t.s, t.id, input);
    FlushWindow(t.s, t.id, input);
    var s := Flush(t.s, t.id, input).0;
    L.HangUpCloses(s, t.id);
    L.CloseWrites(s, t.id);
  }

  /** Raw bytes reach the peer if and only if there is unread input and the stream can still take some. */
  lemma HangUpSendsRaw(t: Tunnel, input: Bytes)
    requires Tables(t.s) && t.id in t.s.streams && t.id != 0 && t.id in t.s.clients
    ensures SentPayload(HangUp(t, input).s.out, t.id) == SentPayload(t.s.out, t.id) <==>
            input == [] || Dead(t.s.streams[t.id].state) || t.s.streams[t.id].sendWindow == 0
  {
    HangUpSends(t, input);
  }

  /**
   After a hang-up, whatever happens later and however the peer cuts what it gets: it has all that the local
   service wrote if and only if nothing was stashed, the stream had room for the unread input, and encoding
   would have left that input unchanged (as it does when there is none). If no raw byte went out, it has a
   prefix, and all that had been read if and only if nothing was stashed.
   */
  lemma HangUpDelivers(e: BlockFunction, t: Tunnel, input: Bytes, later: seq<Action>, chunks: seq<Bytes>)
    requires Exact(e, t) && t.open && t.id in t.s.clients && Possible(e, HangUp(t, input), later)
    requires SentPayload(After(e, HangUp(t, input), later).s.out, t.id) == t.base + Concat(chunks)
    ensures var got := P.DecodeAll(e, P.NewDecoder(), [], chunks).2;
            var n := Room(t.s, t.id, input);
            && (got == t.plain + input <==> t.pending == [] && n == |input| && P.Encode(e, t.enc, input).1 == input)
            && (n == 0 ==> got <= t.plain && (got == t.plain <==> t.pending == []))
  {
    var n, sent := Room(t.s, t.id, input), Concat(chunks);
    var got := P.DecodeAll(e, P.NewDecoder(), [], chunks).2;
    NextExact(e, t, Eof(input));
    HangUpSends(t, input);
    StashWaitsForInput(e, HangUp(t, input), later);
    P.DecodeAllIsDecoded(e, P.NewDecoder(), [], [], chunks);
    assert [] + sent == sent && [] + got == got;
    var was := SentPayload(t.s.out, t.id);
    var framed := was[|t.base|..];
    assert sent == framed + input[..n] by {
      DropPrefix(was, t.base, input[..n], sent);
    }
    assert framed + t.pending == P.Stream(e, t.enc.iv, t.plain) by {
      DropPrefix(was, t.base, t.pending, P.Stream(e, t.enc.iv, t.plain));
    }
    P.CutStreamDecoded(e, t.enc, t.plain, framed, t.pending, input, n);
  }

  lemma DropPrefix(was: Bytes, base: Bytes, a: Bytes, b: Bytes)
    requires base <= was && was + a == base + b
    ensures was[|base|..] + a == b
  {
    assert (was + a)[|base|..] == was[|base|..] + a && (base + b)[|base|..] == b;
  }

  // ---- What a callback sends ----

  /** The loop puts a whole prefix of the buffer on the stream and leaves the rest. */
  lemma FlushSplits(s: Session, id: nat, data: Bytes)
    requires Tables(s) && id in s.streams && id != 0
    ensures var (s', rest, _) := Flush(s, id, data);
            var n := Room(s, id, data);
            SentPayload(s'.out, id) == SentPayload(s.out, id) + data[..n] && rest == data[n..]
  {
    FlushMoves(s, id, data);
    FlushSends(s, id, data);
    var (s', rest, _) := Flush(s, id, data);
    CutAt(SentPayload(s.out, id), data, Room(s, id, data), SentPayload(s'.out, id), rest);
  }

  lemma CutAt(was: Bytes, data: Bytes, n: nat, now: Bytes, rest: Bytes)
    requires n <= |data| && now + rest == was + data && |rest| == |data| - n
    ensures now == was + data[..n] && rest == data[n..]
  {
    assert (now + rest)[..|was| + n] == now && (now + rest)[|was| + n..] == rest;
    assert (was + data)[..|was| + n] == was + data[..n] && (was + data)[|was| + n..] == data[n..];
  }

  /**
   New input moves the stash: the callback sends as many bytes as the window allows of the stash followed by
   the newly encoded input, so the stash first, and keeps exactly the rest; on a closed stream the tunnel ends.
   */
  lemma CallbackSends(e: BlockFunction, t: Tunnel, input: Bytes)
    requires Exact(e, t) && t.open && input != []
    ensures var data := t.pending + P.Encode(e, t.enc, input).1;
            var n := Room(t.s, t.id, data);
            var u := Callback(e, t, input);
            && SentPayload(u.s.out, t.id) == SentPayload(t.s.out, t.id) + data[..n]
            && (u.open <==> !Dead(t.s.streams[t.id].state))
            && (u.open ==> u.pending == data[n..])
            && (u.open ==> (u.reading <==> t.reading && n == |data|))
            && (!u.open ==> t.id !in u.s.registered && t.id !in u.s.clients)
            && (u.open && |t.pending| <= t.s.streams[t.id].sendWindow ==> t.pending <= data[..n])
  {
    var out := P.Encode(e, t.enc, input).1;
    var data := t.pending + out;
    FlushSplits(t.s, t.id, data);
    FlushStops(t.s, t.id, data);
    var n := Room(t.s, t.id, data);
    assert |out| > 0;
    if |t.pending| <= n {
      assert data[..n][..|t.pending|] == t.pending;
    }
  }

  lemma {:induction false} FlushExtends(s: Session, id: nat, data: Bytes)
    requires id in s.streams
    ensures s.out <= Flush(s, id, data).0.out
    decreases |data|
  {
    if data == [] {
    } else {
      WriteVerdict(s, id, data);
      var (s', w) := Write(s, id, data, true);
      if w.Sent? && w.n > 0 {
        FlushExtends(s', id, data[w.n..]);
      }
    }
  }

  /** The first frame the loop writes. */
  lemma FlushFirst(s: Session, id: nat, data: Bytes)
    requires id in s.streams && data != [] && !Dead(s.streams[id].state) && s.streams[id].sendWindow > 0
    ensures var out := Flush(s, id, data).0.out;
            && |s.out| < |out| && out[|s.out|].kind == DATA && out[|s.out|].id == id
            && out[|s.out|].payload == data[..Min(Min(|data|, s.streams[id].sendWindow), MAX_FRAME)]
  {
    var (s', w) := Write(s, id, data, true);
    FlushExtends(s', id, data[w.n..]);
    assert Flush(s, id, data) == Flush(s', id, data[w.n..]);
    assert s'.out[|s.out|] == Flush(s, id, data).0.out[|s.out|];
  }

  /**
   The first frame that a tunnel puts on its stream is a prefix of the cipher stream, and it holds the whole IV
   if and only if the window then had room for it.
   */
  lemma FirstFrameCarriesIv(e: BlockFunction, t: Tunnel, input: Bytes)
    requires Starting(e, t) && input != [] && !Dead(t.s.streams[t.id].state) && t.s.streams[t.id].sendWindow > 0
    ensures var out := Callback(e, t, input).s.out;
            && |t.s.out| < |out| && out[|t.s.out|].kind == DATA && out[|t.s.out|].id == t.id
            && out[|t.s.out|].payload <= P.Stream(e, t.enc.iv, input)
            && (t.enc.iv <= out[|t.s.out|].payload <==> t.s.streams[t.id].sendWindow >= BLOCK)
  {
    var data := P.Encode(e, t.enc, input).1;
    assert [] + data == data && data == P.Stream(e, t.enc.iv, input);
    FlushFirst(t.s, t.id, data);
    FlushStops(t.s, t.id, data);
    assert t.enc.iv <= data;
  }

  // ---- The stateful client ----

  class ProxyClient {
    const session: MuxSession
    const id: nat
    var encoder: P.Encoder
    var encPending: Bytes
    var reading: bool
    var open: bool

    /** The spec-level tunnel for given bookkeeping. */
    ghost function View(base: Bytes, plain: Bytes): Tunnel
      reads this, session
    {
      Tunnel(session.View(), id, encoder, encPending, reading, open, base, plain)
    }

    constructor (session: MuxSession, id: nat, iv: P.Iv)
      ensures this.session == session && this.id == id
      ensures encoder == P.NewEncoder(iv) && encPending == [] && reading && open
    {
      this.session, this.id := session, id;
      encoder, encPending, reading, open := P.NewEncoder(iv), [], true, true;
    }

    /** `tcp_proxy_c2s_cb` with encryption and multiplexing on. */
    method HandleLocalInput(e: BlockFunction, input: Bytes, ghost base: Bytes, ghost plain: Bytes)
      requires Usable(e, encoder.st) && id in session.streams && open
      modifies this, session
      ensures View(base, if input == [] then plain else plain + input) == Callback(e, old(View(base, plain)), input)
    {
      if |input| == 0 {
        return;
      }
      var processed := encPending;
      encPending := [];
      var (enc, out) := P.Encode(e, encoder, input);
      encoder := enc;
      processed := processed + out;
      ghost var goal := Flush(session.View(), id, processed);
      while |processed| > 0
        invariant id in session.streams && Flush(session.View(), id, processed) == goal
        invariant encPending == [] && open && encoder == enc && reading == old(reading)
        decreases |processed|
      {
        var written;
        processed, written := session.StreamWrite(id, processed, true);
        if written.Error? {
          session.DelProxyClient(id);
          open := false;
          return;
        }
        if written.n == 0 {
          encPending := processed;
          reading := false;
          return;
        }
      }
    }

    /** A WINDOW_UPDATE for the stream of this client. */
    method HandleCredit(e: BlockFunction, f: Flags, increment: nat, ghost base: Bytes, ghost plain: Bytes)
      requires Usable(e, encoder.st) && id in session.streams
      modifies this`reading, session
      ensures View(base, plain) == Next(e, old(View(base, plain)), Other(EvWindow(id, f, increment)))
    {
      var wake := session.HandleWindowUpdate(id, f, increment);
      if wake {
        reading := true;
      }
    }

    /** `handle_proxy_disconnect`, with `input` unread in the local connection. */
    method HandleDisconnect(input: Bytes, ghost base: Bytes, ghost plain: Bytes)
      requires id in session.streams && id in session.clients
      modifies this`open, session
      ensures View(base, plain) == HangUp(old(View(base, plain)), input)
    {
      var src := input;
      ghost var goal := Flush(session.View(), id, src).0;
      while |src| > 0
        invariant id in session.streams && id in session.clients
        invariant Flush(session.View(), id, src).0 == goal
        decreases |src|
      {
        var written;
        src, written := session.StreamWrite(id, src, true);
        if written.Error? || written.n == 0 {
          break;
        }
      }
      open := false;
      session.DisconnectClient(id);
    }
  }
}
