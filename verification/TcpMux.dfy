/**
 The stream multiplexer's session (src/tcpmux.c and the client table of src/client.c): stream lifecycle,
 send and receive windows, the two tables, and everything it writes to the connection.
 */
module TcpMux {
  import opened Bytes
  import opened MuxFrames

  const INITIAL_WINDOW := 256 * 1024
  const MAX_YAMUX_WINDOW := 6 * 1024 * 1024
  const MAX_FRAME := 256 * 1024
  const TWO_31 := 0x8000_0000
  const TWO_32 := 0x1_0000_0000
  const PROTO_ERR := 1

  datatype Flags = Flags(syn: bool, ack: bool, fin: bool, rst: bool)

  const ZERO := Flags(false, false, false, false)
  const SYN := Flags(true, false, false, false)
  const ACK := Flags(false, true, false, false)
  const FIN := Flags(false, false, true, false)
  const RST := Flags(false, false, false, true)

  function Bit(b: bool): nat {
    if b then 1 else 0
  }

  function FlagBits(f: Flags): nat {
    Bit(f.syn) + 2 * Bit(f.ack) + 4 * Bit(f.fin) + 8 * Bit(f.rst)
  }

  function FlagsOf(bits: nat): Flags {
    Flags(bits % 2 == 1, bits / 2 % 2 == 1, bits / 4 % 2 == 1, bits / 8 % 2 == 1)
  }

  /** The bits of the flags field: SYN 1, ACK 2, FIN 4, RST 8. */
  lemma FlagValues(bits: nat)
    ensures FlagBits(SYN) == 1 && FlagBits(ACK) == 2 && FlagBits(FIN) == 4 && FlagBits(RST) == 8
    ensures bits < 16 ==> FlagBits(FlagsOf(bits)) == bits
  {}

  lemma FlagsRoundTrip(f: Flags)
    ensures FlagsOf(FlagBits(f)) == f && FlagBits(f) < 16
  {}

  datatype StreamState = Init | SynSend | SynReceived | Established | LocalClose | RemoteClose | Closed | Reset

  datatype Stream = Stream(state: StreamState, sendWindow: nat, recvWindow: nat)

  /** A frame written to the connection. */
  datatype Frame = Frame(kind: Byte, flags: Flags, id: nat, length: nat, payload: Bytes)

  /**
   The local side of a client, as far as it decides who reads its payload: a SOCKS5 client that forwards, one
   that forwarded and has lost its local connection, or any other client.
   */
  datatype Local = Ordinary | Forwarding | Severed

  datatype Client = Client(pendingClose: bool, local: Local)

  /**
   `streams` holds every stream object of the session, `registered` the keys of `all_stream`, `clients`
   the entries of `all_pc`; `allocs` counts ids handed out; `out` is the log of
   frames written.
   */
  datatype Session = Session(streams: map<nat, Stream>, registered: set<nat>, clients: map<nat, Client>,
                             allocs: nat, out: seq<Frame>)

  function Start(): Session {
    Session(map[], {}, map[], 0, [])
  }

  function Emit(s: Session, f: Frame): Session {
    s.(out := s.out + [f])
  }

  function SetStream(s: Session, id: nat, st: Stream): Session {
    s.(streams := s.streams[id := st])
  }

  // ---- Tables ----

  /** `get_next_session_id`: a 32-bit counter that starts at 1 and advances by 2. */
  function SessionId(k: nat): nat {
    (1 + 2 * k) % TWO_32
  }

  /** `init_tmux_stream`, and for a proxy client also its entry in the client table. */
  function OpenStream(s: Session, client: bool): Session {
    var id := SessionId(s.allocs);
    s.(streams := s.streams[id := Stream(Init, INITIAL_WINDOW, MAX_STREAM_WINDOW)],
       registered := s.registered + {id},
       clients := if client then s.clients[id := Client(false, Ordinary)] else s.clients,
       allocs := s.allocs + 1)
  }

  /** `del_proxy_client_by_stream_id` */
  function Delete(s: Session, id: nat): Session {
    if id == 0 then s else s.(registered := s.registered - {id}, clients := s.clients - {id})
  }

  // ---- Flags ----

  function GetSendFlags(st: Stream): (Stream, Flags) {
    match st.state
    case Init => (st.(state := SynSend), SYN)
    case SynReceived => (st.(state := Established), ACK)
    case _ => (st, ZERO)
  }

  /** The new state, whether the stream is to be deleted, and the return value of `process_flags`. */
  datatype FlagResult = FlagResult(state: StreamState, close: bool, ok: bool)

  function ProcessFlags(state: StreamState, f: Flags): FlagResult {
    var s1 := if f.ack && state == SynSend then Established else state;
    if f.fin && (s1 == Closed || s1 == Reset) then FlagResult(s1, false, true)
    else if f.fin && s1 == RemoteClose then FlagResult(s1, false, false)
    else
      var s2 := if !f.fin then s1
                else if s1 == LocalClose then Closed
                else if s1 == Init then Reset
                else RemoteClose;
      var close := f.fin && (s1 == LocalClose || s1 == Init);
      if f.rst then FlagResult(Reset, true, true) else FlagResult(s2, close, true)
  }

  function ApplyFlags(s: Session, id: nat, f: Flags): (r: (Session, bool))
    requires id in s.streams
  {
    var st := s.streams[id];
    var r := ProcessFlags(st.state, f);
    var s' := SetStream(s, id, st.(state := r.state));
    (if r.close then Delete(s', id) else s', r.ok)
  }

  // ---- Receiving ----

  /** `send_window_update` with a non-zero length: hand back all the credit that is missing. */
  function ReturnCredit(s: Session, id: nat, st: Stream): Session {
    var delta := if st.recvWindow < MAX_STREAM_WINDOW then MAX_STREAM_WINDOW - st.recvWindow else 0;
    if delta == 0 then SetStream(s, id, st)
    else
      var (st', flags) := GetSendFlags(st);
      Emit(SetStream(s, id, st'.(recvWindow := MAX_STREAM_WINDOW)), Frame(WINDOW_UPDATE, flags, id, delta, []))
  }

  /** `send_window_update` with length zero: only announce a stream that has not been announced. */
  function Announce(s: Session, id: nat): Session
    requires id in s.streams
  {
    var (st', flags) := GetSendFlags(s.streams[id]);
    if flags == ZERO then s else Emit(SetStream(s, id, st'), Frame(WINDOW_UPDATE, flags, id, 0, []))
  }

  /**
   Whether the payload was read whole or in part, whether the frame was turned down before its payload was
   looked at, or whether the handler left the payload unread and `process_data` took it for read.
   */
  datatype Taken = All | Short | Untouched | Skipped

  /** An established SOCKS5 client without a local connection: its handler returns at once. */
  predicate IsSevered(s: Session, id: nat) {
    id in s.clients && s.clients[id].local == Severed
  }

  /** `process_data`; `short` says that the local side took less than the whole payload. */
  function ReceiveData(s: Session, id: nat, f: Flags, length: nat, short: bool): (r: (Session, Taken))
    requires id in s.registered && id in s.streams
  {
    var (s1, ok) := ApplyFlags(s, id, f);
    if !ok || id !in s1.registered || length > s1.streams[id].recvWindow then (s1, Untouched)
    else
      var taken := if IsSevered(s1, id) then (if length == 0 then All else Skipped)
                   else if short then Short
                   else All;
      (Deliver(s1, id, length, short), taken)
  }

  /** The payload goes to its handler, and the window it used is handed back, or the stream is reset. */
  function Deliver(s: Session, id: nat, length: nat, short: bool): Session
    requires id in s.streams && length <= s.streams[id].recvWindow
  {
    var st := s.streams[id];
    var st' := st.(recvWindow := st.recvWindow - length);
    if short && !IsSevered(s, id) then
      Emit(SetStream(s, id, st'.(state := LocalClose)), Frame(WINDOW_UPDATE, RST, id, 0, []))
    else if length == 0 then Announce(s, id)
    else ReturnCredit(s, id, st')
  }

  /** The two caps of `incr_send_window`, in the order in which the code applies them. */
  function Raise(window: nat, increment: nat): nat {
    var w := if window > MAX_STREAM_WINDOW - increment then MAX_STREAM_WINDOW else window + increment;
    if w > MAX_YAMUX_WINDOW then MAX_YAMUX_WINDOW else w
  }

  function GoAway(s: Session): Session {
    Emit(s, Frame(GO_AWAY, ZERO, 0, PROTO_ERR, []))
  }

  /** `handle_tcp_mux_stream` for a WINDOW_UPDATE frame. */
  function ReceiveWindowUpdate(s: Session, id: nat, f: Flags, increment: nat): Session {
    if f.syn || id !in s.registered || id !in s.streams then s
    else
      var (s1, ok) := ApplyFlags(s, id, f);
      if !ok then GoAway(s1)
      else if id !in s1.registered then s1
      else if increment > MAX_STREAM_WINDOW then GoAway(s1)
      else
        var st := s1.streams[id];
        var s2 := SetStream(s1, id, st.(sendWindow := Raise(st.sendWindow, increment)));
        if s2.streams[id].sendWindow > 0 && id in s2.clients && s2.clients[id].pendingClose then Close(s2, id) else s2
  }

  /** Whether a WINDOW_UPDATE makes the local connection of its client be read again. */
  predicate Wakes(s: Session, id: nat, f: Flags, increment: nat) {
    && !f.syn && id in s.registered && id in s.streams
    && var (s1, ok) := ApplyFlags(s, id, f);
       && ok && id in s1.registered && increment <= MAX_STREAM_WINDOW
       && s1.streams[id].sendWindow == 0 && Raise(0, increment) > 0
       && id in s1.clients && !s1.clients[id].pendingClose
  }

  // ---- Sending ----

  datatype Written = Error(code: int) | Sent(n: nat)

  /** `tmux_stream_write`: at most one DATA frame, limited by source, window and frame size. */
  function Write(s: Session, id: nat, src: Bytes, hasOut: bool): (r: (Session, Written))
    requires id in s.streams
    ensures r.1.Sent? ==> r.1.n <= |src|
  {
    var st := s.streams[id];
    if st.state in {LocalClose, Closed, Reset} then (s, Error(-1))
    else if |src| == 0 || st.sendWindow == 0 then (s, Sent(0))
    else
      var (st', flags) := GetSendFlags(st);
      if !hasOut then (SetStream(s, id, st'), Error(-2))
      else
        var n := Min(Min(|src|, st.sendWindow), MAX_FRAME);
        (Emit(SetStream(s, id, st'.(sendWindow := st.sendWindow - n)), Frame(DATA, flags, id, n, src[..n])), Sent(n))
  }

  /** `tmux_stream_close` */
  function Close(s: Session, id: nat): Session
    requires id in s.streams
  {
    var st := s.streams[id];
    match st.state
    case SynSend | SynReceived | Established =>
      Emit(SetStream(s, id, st.(state := LocalClose)), Frame(WINDOW_UPDATE, FIN, id, 0, []))
    case LocalClose | RemoteClose =>
      Delete(Emit(SetStream(s, id, st.(state := Closed)), Frame(WINDOW_UPDATE, FIN, id, 0, [])), id)
    case _ => s
  }

  /** A SOCKS5 client begins to forward. */
  function Establish(s: Session, id: nat): Session
    requires id in s.clients
  {
    s.(clients := s.clients[id := s.clients[id].(local := Forwarding)])
  }

  /** The local connection of a client is gone. */
  function Sever(s: Session, id: nat): Session
    requires id in s.clients
  {
    var c := s.clients[id];
    s.(clients := s.clients[id := if c.local == Forwarding then c.(local := Severed) else c])
  }

  /** The end of `handle_proxy_disconnect`. */
  function Disconnect(s: Session, id: nat): Session
    requires id in s.streams && id in s.clients
  {
    var s' := Sever(s, id);
    if s.streams[id].sendWindow == 0 then s'.(clients := s'.clients[id := s'.clients[id].(pendingClose := true)])
    else Close(s', id)
  }

  function AnswerPing(s: Session, f: Flags, pingId: nat): Session {
    if f.syn then Emit(s, Frame(PING, ACK, 0, pingId, [])) else s
  }

  // ---- Steps and runs ----

  /**
   `EvFlags` is the first half of a DATA frame whose payload sets off local calls: the calls come between it
   and an `EvData` without flags.
   */
  datatype Event =
    | EvOpen(client: bool)
    | EvDelete(id: nat)
    | EvAnnounce(id: nat)
    | EvWrite(id: nat, src: Bytes, hasOut: bool)
    | EvClose(id: nat)
    | EvEstablish(id: nat)
    | EvDisconnect(id: nat)
    | EvFlags(id: nat, flags: Flags)
    | EvData(id: nat, flags: Flags, length: nat, short: bool)
    | EvWindow(id: nat, flags: Flags, increment: nat)
    | EvPing(flags: Flags, pingId: nat)

  /** Ids are handed out until the 32-bit counter comes round; local calls name existing streams. */
  predicate Enabled(s: Session, e: Event) {
    match e
    case EvOpen(_) => s.allocs < TWO_31
    case EvDelete(_) => true
    case EvAnnounce(id) => id in s.streams
    case EvWrite(id, _, _) => id in s.streams
    case EvClose(id) => id in s.streams
    case EvEstablish(id) => id in s.clients && s.clients[id].local == Ordinary
    case EvDisconnect(id) => id in s.streams && id in s.clients
    case EvFlags(id, _) => id in s.streams && id in s.registered
    case EvData(id, _, _, _) => id in s.streams && id in s.registered
    case EvWindow(_, _, _) => true
    case EvPing(_, pingId) => pingId < TWO_32
  }

  function Step(s: Session, e: Event): Session
    requires Enabled(s, e)
  {
    match e
    case EvOpen(client) => OpenStream(s, client)
    case EvDelete(id) => Delete(s, id)
    case EvAnnounce(id) => Announce(s, id)
    case EvWrite(id, src, hasOut) => Write(s, id, src, hasOut).0
    case EvClose(id) => Close(s, id)
    case EvEstablish(id) => Establish(s, id)
    case EvDisconnect(id) => Disconnect(s, id)
    case EvFlags(id, f) => ApplyFlags(s, id, f).0
    case EvData(id, f, length, short) => ReceiveData(s, id, f, length, short).0
    case EvWindow(id, f, increment) => ReceiveWindowUpdate(s, id, f, increment)
    case EvPing(f, pingId) => AnswerPing(s, f, pingId)
  }

  predicate Runs(s: Session, es: seq<Event>)
    decreases es
  {
    es == [] || (Enabled(s, es[0]) && Runs(Step(s, es[0]), es[1..]))
  }

  function Run(s: Session, es: seq<Event>): Session
    requires Runs(s, es)
    decreases es
  {
    if es == [] then s else Run(Step(s, es[0]), es[1..])
  }

  // ---- The stateful session ----

  /** `process_flags` in the order in which the code tests the bits. */
  method RunFlags(state: StreamState, f: Flags) returns (r: FlagResult)
    ensures r == ProcessFlags(state, f)
  {
    var st, close := state, false;
    if f.ack {
      if st == SynSend {
        st := Established;
      }
    }
    if f.fin {
      match st {
        case SynSend | SynReceived | Established => st := RemoteClose;
        case LocalClose => st, close := Closed, true;
        case Init => st, close := Reset, true;
        case Closed | Reset => return FlagResult(st, close, true);
        case RemoteClose => return FlagResult(st, close, false);
      }
    }
    if f.rst {
      st, close := Reset, true;
    }
    return FlagResult(st, close, true);
  }

  class MuxSession {
    var streams: map<nat, Stream>
    var registered: set<nat>
    var clients: map<nat, Client>
    var nextId: nat
    var out: seq<Frame>
    ghost var allocs: nat

    ghost predicate Valid()
      reads this
    {
      nextId == SessionId(allocs)
    }

    ghost function View(): Session
      reads this
    {
      Session(streams, registered, clients, allocs, out)
    }

    constructor ()
      ensures Valid() && View() == Start()
    {
      streams, registered, clients, nextId, out, allocs := map[], {}, map[], 1, [], 0;
    }

    method NewStream(client: bool) returns (id: nat)
      requires Valid()
      modifies this
      ensures Valid() && View() == OpenStream(old(View()), client) && id == SessionId(old(allocs))
    {
      id := nextId;
      nextId := (nextId + 2) % TWO_32;
      allocs := allocs + 1;
      streams := streams[id := Stream(Init, INITIAL_WINDOW, MAX_STREAM_WINDOW)];
      registered := registered + {id};
      if client {
        clients := clients[id := Client(false, Ordinary)];
      }
    }

    method DelProxyClient(id: nat)
      modifies this`registered, this`clients
      ensures View() == Delete(old(View()), id)
    {
      if id == 0 {
        return;
      }
      registered := registered - {id};
      clients := clients - {id};
    }

    method Put(f: Frame)
      modifies this`out
      ensures View() == Emit(old(View()), f)
    {
      out := out + [f];
    }

    method TakeSendFlags(id: nat) returns (flags: Flags)
      requires id in streams
      modifies this`streams
      ensures id in streams && (streams[id], flags) == GetSendFlags(old(streams)[id])
      ensures streams == old(streams)[id := streams[id]]
    {
      var st := streams[id];
      flags := ZERO;
      match st.state {
        case Init => flags, st := SYN, st.(state := SynSend);
        case SynReceived => flags, st := ACK, st.(state := Established);
        case _ =>
      }
      streams := streams[id := st];
    }

    method ProcessFlagsOf(id: nat, f: Flags) returns (ok: bool)
      requires id in streams
      modifies this`streams, this`registered, this`clients
      ensures (View(), ok) == ApplyFlags(old(View()), id, f)
      ensures id in streams
    {
      var r := RunFlags(streams[id].state, f);
      streams := streams[id := streams[id].(state := r.state)];
      if r.close {
        DelProxyClient(id);
      }
      return r.ok;
    }

    method SendWindowUpdate(id: nat, length: nat)
      requires id in streams
      modifies this`streams, this`out
      ensures length == 0 ==> View() == Announce(old(View()), id)
      ensures length > 0 ==> View() == ReturnCredit(old(View()), id, old(streams)[id])
    {
      assert streams == streams[id := streams[id]];
      if length == 0 {
        var flags := TakeSendFlags(id);
        if flags != ZERO {
          Put(Frame(WINDOW_UPDATE, flags, id, 0, []));
        }
        return;
      }
      var delta := if streams[id].recvWindow < MAX_STREAM_WINDOW then MAX_STREAM_WINDOW - streams[id].recvWindow else 0;
      if delta == 0 {
        return;
      }
      var flags := TakeSendFlags(id);
      streams := streams[id := streams[id].(recvWindow := MAX_STREAM_WINDOW)];
      Put(Frame(WINDOW_UPDATE, flags, id, delta, []));
    }

    method ProcessData(id: nat, f: Flags, length: nat, short: bool) returns (taken: Taken)
      requires id in registered && id in streams
      modifies this
      ensures (View(), taken) == ReceiveData(old(View()), id, f, length, short)
    {
      var ok := ProcessFlagsOf(id, f);
      if !ok || id !in registered || length > streams[id].recvWindow {
        return Untouched;
      }
      ghost var before := View();
      var st := streams[id];
      streams := streams[id := st.(recvWindow := st.recvWindow - length)];
      assert streams[id := st] == before.streams;
      var severed := id in clients && clients[id].local == Severed;
      if short && !severed {
        Put(Frame(WINDOW_UPDATE, RST, id, 0, []));
        streams := streams[id := streams[id].(state := LocalClose)];
        assert streams == before.streams[id := streams[id]];
        return Short;
      }
      if length == 0 {
        assert View() == before;
      } else {
        ghost var whole := GetSendFlags(streams[id]).0.(recvWindow := MAX_STREAM_WINDOW);
        assert streams[id := whole] == before.streams[id := whole];
        assert streams[id := streams[id]] == streams;
        assert ReturnCredit(View(), id, streams[id]) == Deliver(before, id, length, short);
      }
      SendWindowUpdate(id, length);
      assert View() == Deliver(before, id, length, short);
      return if severed && length > 0 then Skipped else All;
    }

    method StreamClose(id: nat)
      requires id in streams
      modifies this
      ensures View() == Close(old(View()), id) && nextId == old(nextId)
    {
      var last := false;
      match streams[id].state {
        case SynSend | SynReceived | Established =>
          streams := streams[id := streams[id].(state := LocalClose)];
        case LocalClose | RemoteClose =>
          last := true;
          streams := streams[id := streams[id].(state := Closed)];
        case _ => return;
      }
      Put(Frame(WINDOW_UPDATE, FIN, id, 0, []));
      if last {
        DelProxyClient(id);
      }
    }

    /** The end of `handle_post_connection_data` for a SOCKS5 client. */
    method EstablishClient(id: nat)
      requires id in clients
      modifies this`clients
      ensures View() == Establish(old(View()), id)
    {
      clients := clients[id := clients[id].(local := Forwarding)];
    }

    /** The end of `handle_proxy_disconnect`: close now, or as soon as there is window for it. */
    method DisconnectClient(id: nat)
      requires id in streams && id in clients
      modifies this
      ensures View() == Disconnect(old(View()), id) && nextId == old(nextId)
    {
      if clients[id].local == Forwarding {
        clients := clients[id := clients[id].(local := Severed)];
      }
      assert clients == Sever(old(View()), id).clients;
      if streams[id].sendWindow == 0 {
        clients := clients[id := clients[id].(pendingClose := true)];
        return;
      }
      StreamClose(id);
    }

    method HandleWindowUpdate(id: nat, f: Flags, increment: nat) returns (wake: bool)
      modifies this
      ensures wake <==> Wakes(old(View()), id, f, increment)
      ensures View() == ReceiveWindowUpdate(old(View()), id, f, increment)
    {
      if f.syn || id !in registered || id !in streams {
        return false;
      }
      var ok := ProcessFlagsOf(id, f);
      if !ok {
        Put(Frame(GO_AWAY, ZERO, 0, PROTO_ERR, []));
        return false;
      }
      if id !in registered {
        return false;
      }
      if increment > MAX_STREAM_WINDOW {
        Put(Frame(GO_AWAY, ZERO, 0, PROTO_ERR, []));
        return false;
      }
      var was := streams[id].sendWindow;
      var w := was;
      if w > MAX_STREAM_WINDOW - increment {
        w := MAX_STREAM_WINDOW;
      } else {
        w := w + increment;
      }
      if w > MAX_YAMUX_WINDOW {
        w := MAX_YAMUX_WINDOW;
      }
      streams := streams[id := streams[id].(sendWindow := w)];
      if w == 0 || id !in clients {
        return false;
      }
      if clients[id].pendingClose {
        StreamClose(id);
        return false;
      }
      return was == 0 && w > 0;
    }

    method StreamWrite(id: nat, src: Bytes, hasOut: bool) returns (rest: Bytes, w: Written)
      requires id in streams
      modifies this`streams, this`out
      ensures (View(), w) == Write(old(View()), id, src, hasOut)
      ensures rest == if w.Sent? then src[w.n..] else src
      ensures id in streams
    {
      rest := src;
      if streams[id].state == LocalClose || streams[id].state == Closed || streams[id].state == Reset {
        return rest, Error(-1);
      }
      if |src| == 0 || streams[id].sendWindow == 0 {
        return rest, Sent(0);
      }
      var flags := TakeSendFlags(id);
      if !hasOut {
        return rest, Error(-2);
      }
      var n := |src|;
      if n > streams[id].sendWindow {
        n := streams[id].sendWindow;
      }
      if n > MAX_FRAME {
        n := MAX_FRAME;
      }
      Put(Frame(DATA, flags, id, n, src[..n]));
      rest := src[n..];
      streams := streams[id := streams[id].(sendWindow := streams[id].sendWindow - n)];
      assert streams == old(streams)[id := streams[id]];
      return rest, Sent(n);
    }
  }
}
