/** Whole paths: what one end takes in, over one connection cut anywhere, is what comes out at the other. */
module EndToEnd {
  import opened Bytes
  import opened MuxFrames
  import opened TcpMux
  import opened TcpMuxSafety
  import D = Demux
  import M = MuxEndToEnd
  import B = BackPressure
  import C = Cfb
  import P = ProxyCrypto
  import V = V2Receive
  import A = Aead

  /** The DATA payloads of one stream, frame by frame. */
  function Payloads(out: seq<Frame>, id: nat): seq<Bytes> {
    if out == [] then []
    else (if out[0].id == id && out[0].kind == DATA then [out[0].payload] else []) + Payloads(out[1..], id)
  }

  // ---- The encrypted tunnel, from the local service to the peer's ----

  lemma {:induction false} FlushOk(s: Session, id: nat, data: Bytes)
    requires Tables(s) && OutOk(s) && id in s.streams
    ensures OutOk(B.Flush(s, id, data).0) && Tables(B.Flush(s, id, data).0)
    decreases |data|
  {
    if data == [] {
    } else {
      OutOkStep(s, EvWrite(id, data, true));
      TablesWrite(s, id, data, true);
      var (s', w) := Write(s, id, data, true);
      if w.Sent? && w.n > 0 {
        FlushOk(s', id, data[w.n..]);
      }
    }
  }

  lemma NextOk(e: C.BlockFunction, t: B.Tunnel, a: B.Action)
    requires B.Exact(e, t) && B.Allowed(t, a) && OutOk(t.s)
    ensures OutOk(B.Next(e, t, a).s)
  {
    match a
    case Input(bytes) =>
      if bytes != [] && t.open {
        FlushOk(t.s, t.id, t.pending + P.Encode(e, t.enc, bytes).1);
      }
    case Eof(rest) =>
      FlushOk(t.s, t.id, rest);
      OutOkStep(B.Flush(t.s, t.id, rest).0, EvDisconnect(t.id));
    case Other(event) => OutOkStep(t.s, event);
  }

  lemma {:induction false} AfterOk(e: C.BlockFunction, t: B.Tunnel, actions: seq<B.Action>)
    requires B.Exact(e, t) && B.Possible(e, t, actions) && OutOk(t.s)
    ensures OutOk(B.After(e, t, actions).s)
    decreases actions
  {
    if actions == [] {
    } else {
      B.NextExact(e, t, actions[0]);
      NextOk(e, t, actions[0]);
      AfterOk(e, B.Next(e, t, actions[0]), actions[1..]);
    }
  }

  /**
   The tunnel end to end: cut the bytes of the whole connection anywhere, demultiplex them, decode the stream
   in any pieces, and what comes out is a prefix of what the local service wrote, all of it when nothing is
   stashed.
   */
  lemma TunnelEndToEnd(e: C.BlockFunction, t: B.Tunnel, actions: seq<B.Action>, cuts: seq<Bytes>, pieces: seq<Bytes>)
    requires B.Starting(e, t) && OutOk(t.s) && B.Possible(e, t, actions) && B.After(e, t, actions).open
    requires Concat(cuts) == M.WireAll(B.After(e, t, actions).s.out)
    requires SentPayload(D.ReadAll(M.Recorder(), D.Fresh(), [], cuts).1, t.id) == t.base + Concat(pieces)
    ensures var u := B.After(e, t, actions);
            var got := P.DecodeAll(e, P.NewDecoder(), [], pieces).2;
            got <= u.plain && (u.pending == [] ==> got == u.plain)
  {
    assert t.base + [] == t.base;
    AfterOk(e, t, actions);
    M.WireRoundTrip(B.After(e, t, actions).s.out, cuts);
    B.PeerDecodesPrefix(e, t, actions, pieces);
  }

  // ---- The control connection: wire protocol v2 inside one stream of the multiplexer ----

  /** The receive path of the control stream `id` behind the demultiplexer, which reads every payload. */
  function ControlHandler(env: V.Env, id: nat): D.Handler<V.State> {
    D.Handler((st: V.State, x: nat) => true,
              (st: V.State, h: Header, p: Bytes) => (if h.id == id then V.Handle(env, st, p).st else st, true),
              (st: V.State, h: Header) => st)
  }

  lemma {:induction false} ControlSees(env: V.Env, id: nat, st: V.State, out: seq<Frame>)
    ensures M.ApplyAll(ControlHandler(env, id), st, out) == V.Run(env, st, Payloads(out, id))
    decreases out
  {
    if out == [] {
    } else {
      var h, f := ControlHandler(env, id), out[0];
      var st1 := M.ApplyFrame(h, st, f);
      ControlSees(env, id, st1, out[1..]);
      if f.id == id && f.kind == DATA {
        assert ([f.payload] + Payloads(out[1..], id))[1..] == Payloads(out[1..], id);
      } else {
        assert [] + Payloads(out[1..], id) == Payloads(out[1..], id);
      }
    }
  }

  /**
   The control connection end to end: the server puts its handshake and its sealed messages into DATA frames of
   any sizes on one stream, among frames of any other streams; however the connection is cut into reads, the
   client dispatches the login response and exactly the messages sent, in order.
   */
  lemma ControlEndToEnd(env: V.Env, s: V.Session, id: nat, out: seq<Frame>, cuts: seq<Bytes>)
    requires s.Valid(env) && M.AllReadable(out) && Concat(cuts) == M.WireAll(out)
    requires Concat(Payloads(out, id)) == s.Wire(env) && V.NoMagicRead(V.Start(), Payloads(out, id))
    ensures var st := D.ReadAll(ControlHandler(env, id), D.Fresh(), V.Start(), cuts).1;
            && st.dispatched == s.Expected()
            && st.rx == s.tail && st.aeadReady && A.InStep(s.Sealed(env).writer, st.ar)
  {
    M.WireApplies(ControlHandler(env, id), V.Start(), out, cuts);
    ControlSees(env, id, V.Start(), out);
    V.SessionDispatchesWhatWasSent(env, s, Payloads(out, id));
  }
}
