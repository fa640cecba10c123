/**
 The receive path of wire protocol v2 on the control connection (src/control.c, `v2_handle_bytes`,
 `v2_consume_plain_frames`, `v2_dispatch_v1_buf`): plaintext frames up to the login response, AEAD
 bytes from the very next byte on.
 */
module V2Receive {
  import opened Bytes
  import opened Aead
  import opened WireV2
  import Nonce

  /** "FRP\0\2\r\n" */
  const MAGIC: Bytes := [0x46, 0x52, 0x50, 0, 2, 13, 10]

  /**
   What the path asks of code outside it: the cipher, the server-to-client key derived from an
   acceptable ServerHello, and the verdict on a login response.
   */
  datatype Env = Env(gcm: Gcm, helloKey: Bytes -> Option<Bytes>, loginOk: Bytes -> bool)

  /** `dispatched` lists the v1 buffers handed to the login and control handlers. */
  datatype State = State(rx: Bytes, magicSeen: bool, gotHello: bool, aeadReady: bool, isLogin: bool,
                         ar: Reader, dispatched: seq<Bytes>)

  function FreshReader(key: Bytes): Reader {
    Reader(key, Nonce.Zeros(NONCE_SIZE), Nonce.Zeros(NONCE_SIZE), false, 0, [], [])
  }

  function Start(): State {
    State([], false, false, false, false, FreshReader([]), [])
  }

  function Dispatch(env: Env, st: State, v1: Bytes): State
    requires |v1| >= 9
  {
    var login := !st.isLogin && v1[0] == '1' as int && env.loginOk(v1[9..]);
    st.(dispatched := st.dispatched + [v1], isLogin := st.isLogin || login)
  }

  /** One turn of the frame loop. `Fail` is an early return that drops bytes. */
  datatype Turn = Wait | Fail(st: State) | Go(st: State) | Switch(st: State)

  function OneTurn(env: Env, st: State): (t: Turn)
    ensures (t.Go? || t.Switch?) ==> |t.st.rx| < |st.rx|
    ensures t.Go? ==> t.st.aeadReady == st.aeadReady
    ensures t.Switch? ==> !st.aeadReady && t.st.aeadReady
  {
    match ParseFrame(st.rx)
    case Incomplete => Wait
    case Invalid => Fail(st.(rx := []))
    case Frame(ftype, payload, n) => OnFrame(env, st, ftype, payload, st.rx[n..])
  }

  /** What a complete frame does, with `rest` behind it. */
  function OnFrame(env: Env, st: State, ftype: nat, payload: Bytes, rest: Bytes): (t: Turn)
    requires |payload| <= WireV2.MAX_PAYLOAD
    ensures !t.Wait? && t.st.rx == rest
    ensures t.Go? ==> t.st.aeadReady == st.aeadReady
    ensures t.Switch? ==> !st.aeadReady && t.st.aeadReady
  {
    if !st.gotHello then
      if ftype != FRAME_SERVER_HELLO then Fail(st.(rx := rest))
      else
        var key := env.helloKey(payload);
        if key.None? then Fail(st.(rx := rest))
        else AfterFrame(st.(gotHello := true, ar := FreshReader(key.value), rx := rest))
    else if ftype == FRAME_MESSAGE then
      var v1 := PayloadToV1(payload);
      AfterFrame((if v1.Some? then Dispatch(env, st, v1.value) else st).(rx := rest))
    else AfterFrame(st.(rx := rest))
  }

  function AfterFrame(st: State): Turn {
    if st.isLogin && st.gotHello && !st.aeadReady then Switch(st.(aeadReady := true)) else Go(st)
  }

  /** `clean` is ghost bookkeeping: no bytes were dropped and no frame was refused. */
  datatype Result = Result(st: State, clean: bool)

  function Consume(env: Env, st: State): Result
    decreases !st.aeadReady, |st.rx|
  {
    match OneTurn(env, st)
    case Wait => Result(st, true)
    case Fail(s) => Result(s, false)
    case Go(s) => Consume(env, s)
    case Switch(s) =>
      // the unread rest of the plaintext buffer already belongs to the AEAD stream
      if s.rx == [] then Result(s, true)
      else
        var o := Feed(env.gcm, s.ar, s.rx);
        if o.status == Fed && o.reader.pt != [] then
          Consume(env, s.(ar := o.reader.(pt := []), rx := o.reader.pt))
        else Result(s.(ar := o.reader, rx := []), o.status == Fed)
  }

  /** A read with no magic at its front. */
  function HandleRaw(env: Env, st: State, b: Bytes): Result {
    if st.aeadReady then
      var o := Feed(env.gcm, st.ar, b);
      if o.status != Fed then Result(st.(ar := o.reader), false)
      else if o.reader.pt == [] then Result(st.(ar := o.reader), true)
      else Consume(env, st.(rx := st.rx + o.reader.pt, ar := o.reader.(pt := [])))
    else Consume(env, st.(rx := st.rx + b))
  }

  predicate StartsWithMagic(b: Bytes) {
    |b| >= |MAGIC| && b[..|MAGIC|] == MAGIC
  }

  /** One call of `v2_handle_bytes`. */
  function Handle(env: Env, st: State, b: Bytes): Result {
    if !st.magicSeen && StartsWithMagic(b) then HandleRaw(env, st.(magicSeen := true), b[|MAGIC|..])
    else HandleRaw(env, st, b)
  }

  function Run(env: Env, st: State, chunks: seq<Bytes>): State
    decreases chunks
  {
    if chunks == [] then st else Run(env, Handle(env, st, chunks[0]).st, chunks[1..])
  }

  // ---- Later bytes do not change an earlier turn ----

  function More(st: State, b: Bytes): State {
    st.(rx := st.rx + b)
  }

  /** What a frame does depends on the bytes behind it only in that they are kept. */
  lemma FrameThenMore(env: Env, st: State, ftype: nat, payload: Bytes, rest: Bytes, b: Bytes)
    requires |payload| <= WireV2.MAX_PAYLOAD
    ensures var t := OnFrame(env, st, ftype, payload, rest);
            OnFrame(env, More(st, b), ftype, payload, rest + b) ==
            match t
            case Wait => Wait
            case Fail(s) => Fail(More(s, b))
            case Go(s) => Go(More(s, b))
            case Switch(s) => Switch(More(s, b))
  {}

  lemma TurnThenMore(env: Env, st: State, b: Bytes)
    ensures var t, t' := OneTurn(env, st), OneTurn(env, More(st, b));
            && (t.Go? ==> t' == Go(More(t.st, b)))
            && (t.Switch? ==> t' == Switch(More(t.st, b)))
            && (t.Fail? ==> t'.Fail?)
  {
    var p := ParseFrame(st.rx);
    if !p.Incomplete? {
      ParseThenMore(st.rx, b);
      if p.Frame? {
        assert (st.rx + b)[p.consumed..] == st.rx[p.consumed..] + b;
        FrameThenMore(env, st, p.ftype, p.payload, st.rx[p.consumed..], b);
      }
    }
  }

  // ---- After the switch the loop is a decoder of the plaintext alone ----

  predicate Ready(st: State) {
    st.aeadReady && st.gotHello
  }

  lemma {:induction false} ReadyKeeps(env: Env, st: State, r: Reader)
    requires Ready(st)
    ensures var c := Consume(env, st);
            && Consume(env, st.(ar := r)) == Result(c.st.(ar := r), c.clean)
            && Ready(c.st) && c.st.ar == st.ar && c.st.magicSeen == st.magicSeen
            && (st.isLogin ==> c.st.isLogin)
            && (c.clean ==> ParseFrame(c.st.rx).Incomplete?)
    decreases |st.rx|
  {
    var t := OneTurn(env, st);
    if t.Go? {
      assert OneTurn(env, st.(ar := r)) == Go(t.st.(ar := r));
      ReadyKeeps(env, t.st, r);
    }
  }

  lemma {:induction false} ReadyThenMore(env: Env, st: State, b: Bytes)
    requires Ready(st) && Consume(env, More(st, b)).clean
    ensures Consume(env, st).clean
    ensures Consume(env, More(Consume(env, st).st, b)) == Consume(env, More(st, b))
    decreases |st.rx|
  {
    TurnThenMore(env, st, b);
    var t := OneTurn(env, st);
    if t.Go? {
      ReadyThenMore(env, t.st, b);
    }
  }

  /** In AEAD mode two reads are one read. */
  lemma ReadyInTwo(env: Env, st: State, a: Bytes, b: Bytes)
    requires Ready(st) && st.ar.pt == [] && ParseFrame(st.rx).Incomplete? && HandleRaw(env, st, a + b).clean
    ensures var h := HandleRaw(env, st, a);
            && h.clean && Ready(h.st) && h.st.ar.pt == [] && h.st.magicSeen == st.magicSeen
            && (st.isLogin ==> h.st.isLogin) && ParseFrame(h.st.rx).Incomplete?
            && HandleRaw(env, h.st, b) == HandleRaw(env, st, a + b)
  {
    FeedInTwo(env.gcm, st.ar, a, b);
    var o := Feed(env.gcm, st.ar, a);
    var o2 := Feed(env.gcm, o.reader.(pt := []), b);
    var p1, p2 := o.reader.pt, o2.reader.pt;
    var r1, r2 := o.reader.(pt := []), o2.reader.(pt := []);
    var whole := st.(rx := st.rx + (p1 + p2), ar := r2);
    assert st.rx + (p1 + p2) == st.rx + p1 + p2;
    assert HandleRaw(env, st, a + b) == Consume(env, whole) by {
      if p1 + p2 == [] {
        assert st.rx + [] == st.rx;
      }
    }
    var s1 := st.(rx := st.rx + p1, ar := r1);
    ReadyThenMore(env, s1.(ar := r2), p2);
    ReadyKeeps(env, s1, r2);
    var h := HandleRaw(env, st, a);
    assert h == Consume(env, s1) by {
      if p1 == [] {
        assert st.rx + [] == st.rx;
      }
    }
    if p2 == [] {
      assert h.st.rx + [] == h.st.rx;
    }
  }

  // ---- Across the switch ----

  /** What holds between reads. */
  predicate Good(st: State) {
    && st.ar.pt == []
    && (st.aeadReady <==> st.gotHello && st.isLogin)
    && (st.isLogin ==> st.gotHello)
    && (!st.aeadReady ==> st.ar.ct == [] && !st.ar.headerRead)
    && (st.aeadReady ==> ParseFrame(st.rx).Incomplete?)
  }

  /** Feeding the leftover at the switch is a read of that leftover by the switched state. */
  lemma SwitchIsRead(env: Env, st: State)
    requires OneTurn(env, st).Switch?
    requires OneTurn(env, st).st.ar.pt == [] && OneTurn(env, st).st.ar.ct == [] && !OneTurn(env, st).st.ar.headerRead
    ensures var s := OneTurn(env, st).st;
            Consume(env, st) == HandleRaw(env, s.(rx := []), s.rx)
  {
    var s := OneTurn(env, st).st;
    if s.rx == [] {
      assert Buffer(s.ar, []) == s.ar;
    }
    var o := Feed(env.gcm, s.ar, s.rx);
    assert [] + o.reader.pt == o.reader.pt;
  }

  lemma {:induction false} PlainThenMore(env: Env, st: State, b: Bytes)
    requires Good(st) && !st.aeadReady && Consume(env, More(st, b)).clean
    ensures var c := Consume(env, st);
            && c.clean && Good(c.st) && c.st.magicSeen == st.magicSeen
            && HandleRaw(env, c.st, b) == Consume(env, More(st, b))
    decreases |st.rx|
  {
    TurnThenMore(env, st, b);
    var t := OneTurn(env, st);
    if t.Go? {
      PlainThenMore(env, t.st, b);
    } else if t.Switch? {
      var s := t.st;
      SwitchIsRead(env, st);
      SwitchIsRead(env, More(st, b));
      ReadyInTwo(env, s.(rx := []), s.rx, b);
    }
  }

  lemma HandleInTwo(env: Env, st: State, a: Bytes, b: Bytes)
    requires Good(st) && HandleRaw(env, st, a + b).clean
    ensures var h := HandleRaw(env, st, a);
            && h.clean && Good(h.st) && h.st.magicSeen == st.magicSeen
            && HandleRaw(env, h.st, b) == HandleRaw(env, st, a + b)
  {
    if st.aeadReady {
      ReadyInTwo(env, st, a, b);
    } else {
      assert More(More(st, a), b) == More(st, a + b) by {
        assert st.rx + a + b == st.rx + (a + b);
      }
      PlainThenMore(env, More(st, a), b);
    }
  }

  /** No read of the run has its front taken for the magic. */
  predicate NoMagicRead(st: State, chunks: seq<Bytes>) {
    st.magicSeen || forall i :: 0 <= i < |chunks| ==> !StartsWithMagic(chunks[i])
  }

  /**
   Chunk independence across the switch: every way of cutting the bytes into reads ends in the state of
   one read of all of them, provided that one read drops nothing and no read starts with the magic.
   */
  lemma {:induction false} ChunkIndependence(env: Env, st: State, chunks: seq<Bytes>)
    requires Good(st) && chunks != [] && NoMagicRead(st, chunks)
    requires HandleRaw(env, st, Concat(chunks)).clean
    ensures Run(env, st, chunks) == HandleRaw(env, st, Concat(chunks)).st
    decreases chunks
  {
    assert !(!st.magicSeen && StartsWithMagic(chunks[0]));
    if |chunks| == 1 {
      assert Concat(chunks) == chunks[0];
      assert Run(env, st, chunks) == Run(env, HandleRaw(env, st, chunks[0]).st, []);
    } else {
      HandleInTwo(env, st, chunks[0], Concat(chunks[1..]));
      ChunkIndependence(env, HandleRaw(env, st, chunks[0]).st, chunks[1..]);
    }
  }

  // ---- What the server sent is what is dispatched ----

  datatype Message = Message(msgType: char, json: Bytes)
  {
    predicate Sendable() {
      MsgTypeToId(msgType) != 0 && 2 + |json| <= WireV2.MAX_PAYLOAD
    }
  }

  predicate AllSendable(msgs: seq<Message>) {
    msgs == [] || (msgs[0].Sendable() && AllSendable(msgs[1..]))
  }

  function FrameOf(m: Message): Bytes {
    var wire := EncodeMessage(m.msgType, m.json);
    if wire.None? then [] else wire.value
  }

  function Frames(msgs: seq<Message>): Bytes {
    if msgs == [] then [] else FrameOf(msgs[0]) + Frames(msgs[1..])
  }

  function V1s(msgs: seq<Message>): seq<Bytes> {
    if msgs == [] then [] else [V1Message(msgs[0].msgType, msgs[0].json)] + V1s(msgs[1..])
  }

  lemma MessageTurn(env: Env, st: State, m: Message, rest: Bytes)
    requires st.gotHello && m.Sendable() && st.rx == FrameOf(m) + rest
    ensures OneTurn(env, st) == AfterFrame(Dispatch(env, st, V1Message(m.msgType, m.json)).(rx := rest))
  {
    MessageRoundTrip(m.msgType, m.json, rest);
    assert st.rx[|FrameOf(m)|..] == rest;
  }

  /** The frame loop in AEAD mode takes the first message off the front. */
  lemma ReadyTurn(env: Env, st: State, m: Message, rest: Bytes)
    requires Ready(st) && st.isLogin && m.Sendable() && st.rx == FrameOf(m) + rest
    ensures Consume(env, st) ==
            Consume(env, st.(rx := rest, dispatched := st.dispatched + [V1Message(m.msgType, m.json)]))
  {
    MessageTurn(env, st, m, rest);
  }

  lemma {:induction false} ReadyDispatchesAll(env: Env, st: State, msgs: seq<Message>, tail: Bytes)
    requires Ready(st) && st.isLogin && ParseFrame(tail).Incomplete?
    requires AllSendable(msgs)
    requires st.rx == Frames(msgs) + tail
    ensures Consume(env, st) == Result(st.(rx := tail, dispatched := st.dispatched + V1s(msgs)), true)
    decreases msgs
  {
    if msgs == [] {
      assert st.rx == tail && st.dispatched + [] == st.dispatched;
    } else {
      var v1, rest := V1Message(msgs[0].msgType, msgs[0].json), Frames(msgs[1..]) + tail;
      Assoc(FrameOf(msgs[0]), Frames(msgs[1..]), tail);
      ReadyTurn(env, st, msgs[0], rest);
      ReadyDispatchesAll(env, st.(rx := rest, dispatched := st.dispatched + [v1]), msgs[1..], tail);
      Assoc(st.dispatched, [v1], V1s(msgs[1..]));
    }
  }

  // ---- Before the login ----

  /** A login response that is accepted. */
  predicate IsLogin(env: Env, m: Message) {
    m.msgType == '1' && env.loginOk(m.json)
  }

  predicate NoneLogsIn(env: Env, msgs: seq<Message>) {
    msgs == [] || (!IsLogin(env, msgs[0]) && NoneLogsIn(env, msgs[1..]))
  }

  /** Any other message before the login -- a refused login response too -- is dispatched as plaintext. */
  lemma PlainTurn(env: Env, st: State, m: Message, rest: Bytes)
    requires st.gotHello && !st.isLogin && m.Sendable() && !IsLogin(env, m) && st.rx == FrameOf(m) + rest
    ensures OneTurn(env, st) == Go(st.(rx := rest, dispatched := st.dispatched + [V1Message(m.msgType, m.json)]))
  {
    NoLoginDispatched(env, st, m);
    MessageTurn(env, st, m, rest);
  }

  lemma NoLoginDispatched(env: Env, st: State, m: Message)
    requires !st.isLogin && m.Sendable() && !IsLogin(env, m)
    ensures var v1 := V1Message(m.msgType, m.json);
            Dispatch(env, st, v1) == st.(dispatched := st.dispatched + [v1])
  {
    TypeMapsInverse(m.msgType, 0);
    var v1 := V1Message(m.msgType, m.json);
    assert v1[0] == m.msgType as int && v1[9..] == m.json;
  }

  lemma {:induction false} PlainDispatches(env: Env, st: State, msgs: seq<Message>, rest: Bytes)
    requires st.gotHello && !st.isLogin && AllSendable(msgs) && NoneLogsIn(env, msgs)
    requires st.rx == Frames(msgs) + rest
    ensures Consume(env, st) == Consume(env, st.(rx := rest, dispatched := st.dispatched + V1s(msgs)))
    decreases msgs
  {
    if msgs == [] {
      assert st.rx == rest && st.dispatched + [] == st.dispatched;
    } else {
      var v1, more := V1Message(msgs[0].msgType, msgs[0].json), Frames(msgs[1..]) + rest;
      Assoc(FrameOf(msgs[0]), Frames(msgs[1..]), rest);
      PlainTurn(env, st, msgs[0], more);
      PlainDispatches(env, st.(rx := more, dispatched := st.dispatched + [v1]), msgs[1..], rest);
      Assoc(st.dispatched, [v1], V1s(msgs[1..]));
    }
  }

  /**
   The ServerHello, messages that do not log in, the login response and then the sealed stream, as the server
   writes them.
   */
  datatype Session = Session(hello: Bytes, early: seq<Message>, login: Bytes, writer: Writer, calls: seq<SealCall>,
                             msgs: seq<Message>, tail: Bytes)
  {
    function Sealed(env: Env): SealRun {
      SealAll(env.gcm, writer, calls)
    }

    function LoginMessage(): Message {
      Message('1', login)
    }

    function Wire(env: Env): Bytes {
      EncodeFrame(FRAME_SERVER_HELLO, hello) + (Frames(early) + (FrameOf(LoginMessage()) + Sealed(env).wire))
    }

    /** What is to be dispatched. */
    function Expected(): seq<Bytes> {
      V1s(early) + [V1Message('1', login)] + V1s(msgs)
    }

    /**
     The handshake is acceptable, the writer starts afresh under the key the client derives, its counter
     lasts, and the sealed plaintext -- in whatever segments -- is whole messages and a partial last frame.
     */
    ghost predicate Valid(env: Env) {
      && env.gcm.Lawful()
      && |hello| <= WireV2.MAX_PAYLOAD && env.helloKey(hello) == Some(writer.key)
      && AllSendable(early) && NoneLogsIn(env, early)
      && LoginMessage().Sendable() && env.loginOk(login)
      && writer.Valid() && !writer.headerSent
      && HasRoom(writer.nonce, Uses(calls))
      && AllSendable(msgs)
      && ParseFrame(tail).Incomplete?
      && Sealed(env).plain == Frames(msgs) + tail
    }
  }

  lemma HelloTurn(env: Env, st: State, hello: Bytes, key: Bytes, rest: Bytes)
    requires !st.gotHello && !st.isLogin && |hello| <= WireV2.MAX_PAYLOAD && env.helloKey(hello) == Some(key)
    requires st.rx == EncodeFrame(FRAME_SERVER_HELLO, hello) + rest
    ensures OneTurn(env, st) == Go(st.(gotHello := true, ar := FreshReader(key), rx := rest))
  {
    ParseEncoded(FRAME_SERVER_HELLO, hello, rest);
    assert st.rx[|EncodeFrame(FRAME_SERVER_HELLO, hello)|..] == rest;
  }

  lemma LoginTurn(env: Env, st: State, login: Bytes, rest: Bytes)
    requires st.gotHello && !st.isLogin && !st.aeadReady && Message('1', login).Sendable() && env.loginOk(login)
    requires st.rx == FrameOf(Message('1', login)) + rest
    ensures OneTurn(env, st) ==
            Switch(st.(rx := rest, isLogin := true, aeadReady := true,
                       dispatched := st.dispatched + [V1Message('1', login)]))
  {
    var v1 := V1Message('1', login);
    assert v1[0] == '1' as int && v1[9..] == login;
    assert Dispatch(env, st, v1) == st.(dispatched := st.dispatched + [v1], isLogin := true);
    MessageTurn(env, st, Message('1', login), rest);
  }

  /** Where the client stands once it has the login response. */
  function LoggedIn(s: Session, magicSeen: bool): State {
    State([], magicSeen, true, true, true, FreshReader(s.writer.key), V1s(s.early) + [V1Message('1', s.login)])
  }

  /** Where the client stands once it has the ServerHello and dispatched `sofar`, with `rx` to be looked at. */
  function Greeted(key: Bytes, magicSeen: bool, sofar: seq<Bytes>, rx: Bytes): State {
    State(rx, magicSeen, true, false, false, FreshReader(key), sofar)
  }

  /** The hello and the messages behind it that do not log in. */
  lemma HelloRead(env: Env, hello: Bytes, key: Bytes, early: seq<Message>, rest: Bytes, magicSeen: bool)
    requires |hello| <= WireV2.MAX_PAYLOAD && env.helloKey(hello) == Some(key)
    requires AllSendable(early) && NoneLogsIn(env, early)
    ensures HandleRaw(env, Start().(magicSeen := magicSeen),
                      EncodeFrame(FRAME_SERVER_HELLO, hello) + (Frames(early) + rest))
         == Consume(env, Greeted(key, magicSeen, V1s(early), rest))
  {
    var wire := EncodeFrame(FRAME_SERVER_HELLO, hello) + (Frames(early) + rest);
    var st := Start().(magicSeen := magicSeen, rx := wire);
    assert [] + wire == wire;
    HelloTurn(env, st, hello, key, Frames(early) + rest);
    PlainDispatches(env, Greeted(key, magicSeen, [], Frames(early) + rest), early, rest);
    assert [] + V1s(early) == V1s(early);
  }

  lemma LoginRead(env: Env, s: Session, magicSeen: bool, sealed: Bytes)
    requires s.Valid(env)
    ensures Consume(env, Greeted(s.writer.key, magicSeen, V1s(s.early), FrameOf(s.LoginMessage()) + sealed))
         == HandleRaw(env, LoggedIn(s, magicSeen), sealed)
  {
    var st := Greeted(s.writer.key, magicSeen, V1s(s.early), FrameOf(s.LoginMessage()) + sealed);
    LoginTurn(env, st, s.login, sealed);
    assert OneTurn(env, st) == Switch(LoggedIn(s, magicSeen).(rx := sealed));
    SwitchIsRead(env, st);
  }

  lemma SealedRead(env: Env, s: Session, st: State)
    requires s.Valid(env) && Ready(st) && st.isLogin && st.rx == [] && st.ar == FreshReader(s.writer.key)
    ensures var h := HandleRaw(env, st, s.Sealed(env).wire);
            && h.clean && h.st.dispatched == st.dispatched + V1s(s.msgs)
            && h.st.rx == s.tail && h.st.aeadReady && InStep(s.Sealed(env).writer, h.st.ar)
  {
    var run := s.Sealed(env);
    FeedWire(env.gcm, s.writer, st.ar, s.calls);
    var o := Feed(env.gcm, st.ar, run.wire);
    assert [] + run.plain == run.plain;
    assert o.reader.pt == run.plain;
    var st1 := st.(rx := run.plain, ar := o.reader.(pt := []));
    ReadyDispatchesAll(env, st1, s.msgs, s.tail);
    if run.plain == [] {
      assert OneTurn(env, st1) == Wait;
    }
  }

  /** One read of the whole session. */
  lemma OneReadSession(env: Env, s: Session, magicSeen: bool)
    requires s.Valid(env)
    ensures var h := HandleRaw(env, Start().(magicSeen := magicSeen), s.Wire(env));
            && h.clean
            && h.st.dispatched == s.Expected()
            && h.st.rx == s.tail && h.st.aeadReady && InStep(s.Sealed(env).writer, h.st.ar)
  {
    var sealed := s.Sealed(env).wire;
    HelloRead(env, s.hello, s.writer.key, s.early, FrameOf(s.LoginMessage()) + sealed, magicSeen);
    LoginRead(env, s, magicSeen, sealed);
    SealedRead(env, s, LoggedIn(s, magicSeen));
  }

  /**
   For every way of cutting the session into reads -- also when the switch to AEAD falls in the middle
   of one -- the client dispatches what came before the login, the login response and then exactly the messages
   sent, in order, and keeps only the incomplete last frame.
   */
  lemma SessionDispatchesWhatWasSent(env: Env, s: Session, chunks: seq<Bytes>)
    requires s.Valid(env) && Concat(chunks) == s.Wire(env) && NoMagicRead(Start(), chunks)
    ensures var st := Run(env, Start(), chunks);
            && st.dispatched == s.Expected()
            && st.rx == s.tail && st.aeadReady && InStep(s.Sealed(env).writer, st.ar)
  {
    OneReadSession(env, s, false);
    assert Start() == Start().(magicSeen := false);
    ChunkIndependence(env, Start(), chunks);
  }

  /** The same when the server leads with the magic and the first read holds all of it. */
  lemma SessionWithMagic(env: Env, s: Session, first: Bytes, chunks: seq<Bytes>)
    requires s.Valid(env) && first + Concat(chunks) == s.Wire(env)
    ensures var st := Run(env, Start(), [MAGIC + first] + chunks);
            && st.dispatched == s.Expected()
            && st.rx == s.tail && st.aeadReady && InStep(s.Sealed(env).writer, st.ar)
  {
    var st0 := Start().(magicSeen := true);
    OneReadSession(env, s, true);
    ChunkIndependence(env, st0, [first] + chunks);
    assert ([first] + chunks)[1..] == chunks && ([MAGIC + first] + chunks)[1..] == chunks;
    assert (MAGIC + first)[..|MAGIC|] == MAGIC && (MAGIC + first)[|MAGIC|..] == first;
    assert Handle(env, Start(), MAGIC + first) == Handle(env, st0, first);
  }

  /**
   As long as no accepted login response comes -- none at all, or only refused ones -- the client stays with
   plaintext and dispatches every message, for every way of cutting the bytes into reads.
   */
  lemma RefusedLoginStaysPlain(env: Env, hello: Bytes, key: Bytes, early: seq<Message>, tail: Bytes, chunks: seq<Bytes>)
    requires |hello| <= WireV2.MAX_PAYLOAD && env.helloKey(hello) == Some(key)
    requires AllSendable(early) && NoneLogsIn(env, early) && ParseFrame(tail).Incomplete?
    requires Concat(chunks) == EncodeFrame(FRAME_SERVER_HELLO, hello) + (Frames(early) + tail)
    requires NoMagicRead(Start(), chunks)
    ensures Run(env, Start(), chunks) == Greeted(key, false, V1s(early), tail)
  {
    HelloRead(env, hello, key, early, tail, false);
    assert Start() == Start().(magicSeen := false);
    ChunkIndependence(env, Start(), chunks);
  }

  // ---- Who is logged in, in every run ----

  /** A v1 buffer that is an accepted login response. */
  predicate Accepted(env: Env, v1: Bytes) {
    |v1| >= 9 && v1[0] == '1' as int && env.loginOk(v1[9..])
  }

  predicate AnyAccepted(env: Env, vs: seq<Bytes>) {
    exists i :: 0 <= i < |vs| && Accepted(env, vs[i])
  }

  lemma AnyAcceptedSnoc(env: Env, vs: seq<Bytes>, v1: Bytes)
    ensures AnyAccepted(env, vs + [v1]) <==> AnyAccepted(env, vs) || Accepted(env, v1)
  {
    var all := vs + [v1];
    if AnyAccepted(env, vs) {
      var i :| 0 <= i < |vs| && Accepted(env, vs[i]);
      assert all[i] == vs[i];
    }
    if Accepted(env, v1) {
      assert all[|vs|] == v1;
    }
    assert forall i :: 0 <= i < |vs| ==> all[i] == vs[i];
  }

  /** Logged in means an accepted response was dispatched, and is the same as having switched to AEAD. */
  predicate LoginInv(env: Env, st: State) {
    && (st.isLogin <==> AnyAccepted(env, st.dispatched))
    && (st.aeadReady <==> st.isLogin)
    && (!st.gotHello ==> st.dispatched == [])
  }

  lemma FrameLogin(env: Env, st: State, ftype: nat, payload: Bytes, rest: Bytes)
    requires LoginInv(env, st) && |payload| <= WireV2.MAX_PAYLOAD
    ensures var t := OnFrame(env, st, ftype, payload, rest); !t.Wait? && LoginInv(env, t.st)
  {
    if st.gotHello && ftype == FRAME_MESSAGE && PayloadToV1(payload).Some? {
      AnyAcceptedSnoc(env, st.dispatched, PayloadToV1(payload).value);
    }
    if !st.gotHello {
      assert !AnyAccepted(env, st.dispatched);
    }
  }

  lemma {:induction false} ConsumeLogin(env: Env, st: State)
    requires LoginInv(env, st)
    ensures LoginInv(env, Consume(env, st).st)
    decreases !st.aeadReady, |st.rx|
  {
    var p := ParseFrame(st.rx);
    if p.Frame? {
      FrameLogin(env, st, p.ftype, p.payload, st.rx[p.consumed..]);
      var t := OneTurn(env, st);
      match t
      case Wait =>
      case Fail(_) =>
      case Go(s) => ConsumeLogin(env, s);
      case Switch(s) =>
        if s.rx != [] {
          var o := Feed(env.gcm, s.ar, s.rx);
          if o.status == Fed && o.reader.pt != [] {
            ConsumeLogin(env, s.(ar := o.reader.(pt := []), rx := o.reader.pt));
          }
        }
    }
  }

  lemma HandleLogin(env: Env, st: State, b: Bytes)
    requires LoginInv(env, st)
    ensures LoginInv(env, Handle(env, st, b).st)
  {
    var seen := !st.magicSeen && StartsWithMagic(b);
    var st1, p := st.(magicSeen := st.magicSeen || seen), if seen then b[|MAGIC|..] else b;
    if st1.aeadReady {
      var o := Feed(env.gcm, st1.ar, p);
      ConsumeLogin(env, st1.(rx := st1.rx + o.reader.pt, ar := o.reader.(pt := [])));
    } else {
      ConsumeLogin(env, st1.(rx := st1.rx + p));
    }
  }

  lemma {:induction false} LoginRun(env: Env, st: State, chunks: seq<Bytes>)
    requires LoginInv(env, st)
    ensures LoginInv(env, Run(env, st, chunks))
    decreases chunks
  {
    if chunks == [] {
    } else {
      HandleLogin(env, st, chunks[0]);
      LoginRun(env, Handle(env, st, chunks[0]).st, chunks[1..]);
    }
  }

  /**
   In every run, on whatever bytes and however they are cut: the client is logged in, and has switched to AEAD,
   if and only if it has dispatched an accepted login response; and nothing is dispatched before the hello.
   */
  lemma LoggedInIff(env: Env, chunks: seq<Bytes>)
    ensures var st := Run(env, Start(), chunks);
            && (st.isLogin <==> AnyAccepted(env, st.dispatched))
            && (st.aeadReady <==> st.isLogin)
            && (!st.gotHello ==> st.dispatched == [])
  {
    assert !AnyAccepted(env, []);
    LoginRun(env, Start(), chunks);
  }

  // ---- Frames that are refused or skipped ----

  /** The first frame must be an acceptable ServerHello; any other is dropped, and the read ends there. */
  lemma FirstFrameRefused(env: Env, st: State, ftype: nat, payload: Bytes, rest: Bytes)
    requires !st.gotHello && ftype < 0x1_0000 && |payload| <= WireV2.MAX_PAYLOAD
    requires ftype != 2 || env.helloKey(payload).None?
    requires st.rx == EncodeFrame(ftype, payload) + rest
    ensures Consume(env, st) == Result(st.(rx := rest), false)
  {
    ParseEncoded(ftype, payload, rest);
    assert st.rx[|EncodeFrame(ftype, payload)|..] == rest;
  }

  /** After the hello a frame of another kind, or a message without a known type, is passed over. */
  lemma OthersPassedOver(env: Env, st: State, ftype: nat, payload: Bytes, rest: Bytes)
    requires st.gotHello && LoginInv(env, st) && ftype < 0x1_0000 && |payload| <= WireV2.MAX_PAYLOAD
    requires ftype != 16 || |payload| < 2 || !(1 <= BigEndian(payload[..2]) <= 18)
    requires st.rx == EncodeFrame(ftype, payload) + rest
    ensures Consume(env, st) == Consume(env, st.(rx := rest))
  {
    ParseEncoded(ftype, payload, rest);
    assert st.rx[|EncodeFrame(ftype, payload)|..] == rest;
    if |payload| >= 2 {
      Get16IsBigEndian(payload[..2]);
      TypeMapsInverse('o', BigEndian(payload[..2]));
    }
  }

  // ---- A magic that is not in one piece ----

  /** Fewer than eight bytes are no frame: they are only gathered. */
  lemma {:induction false} FewBytesAreKept(env: Env, st: State, pieces: seq<Bytes>)
    requires !st.aeadReady && NoMagicRead(st, pieces) && |st.rx + Concat(pieces)| < 8
    ensures Run(env, st, pieces) == st.(rx := st.rx + Concat(pieces))
    decreases pieces
  {
    if pieces == [] {
      assert st.rx + [] == st.rx;
    } else {
      var b := pieces[0];
      Assoc(st.rx, b, Concat(pieces[1..]));
      assert Handle(env, st, b).st == st.(rx := st.rx + b);
      FewBytesAreKept(env, st.(rx := st.rx + b), pieces[1..]);
    }
  }

  lemma {:induction false} RunInTwo(env: Env, st: State, a: seq<Bytes>, b: seq<Bytes>)
    ensures Run(env, st, a + b) == Run(env, Run(env, st, a), b)
    decreases a
  {
    if a == [] {
      assert a + b == b;
    } else {
      assert (a + b)[1..] == a[1..] + b;
      RunInTwo(env, Handle(env, st, a[0]).st, a[1..], b);
    }
  }

  /** The magic reads as a frame with flags, which the parser refuses. */
  lemma MagicIsNoFrame(rest: Bytes)
    requires rest != []
    ensures ParseFrame(MAGIC + rest).Invalid?
  {
    var all := MAGIC + rest;
    assert all[2..4] == [0x50, 0];
    assert Get16(all[2..4]) != 0;
  }

  /**
   A magic that no read holds in one piece is taken for a frame, refused, and takes with it everything
   in the read that brings the eighth byte: the client starts over with whatever comes later.
   */
  lemma MagicCutLosesSession(env: Env, pieces: seq<Bytes>, last: Bytes, rest: Bytes, later: seq<Bytes>)
    requires rest != [] && Concat(pieces) + last == MAGIC + rest && |Concat(pieces)| < 8
    requires NoMagicRead(Start(), pieces + [last])
    ensures Run(env, Start(), pieces + ([last] + later)) == Run(env, Start(), later)
  {
    assert forall i :: 0 <= i < |pieces| ==> pieces[i] == (pieces + [last])[i];
    assert (pieces + [last])[|pieces|] == last;
    var front := Concat(pieces);
    assert [] + front == front;
    FewBytesAreKept(env, Start(), pieces);
    RunInTwo(env, Start(), pieces, [last] + later);
    var st := Start().(rx := front);
    assert Handle(env, st, last).st == Start() by {
      MagicIsNoFrame(rest);
      assert OneTurn(env, st.(rx := MAGIC + rest)) == Fail(Start());
    }
    assert ([last] + later)[1..] == later;
  }

  // ---- A read that fails ----

  /** A client in AEAD mode whose reader is stuck on a frame. */
  predicate Deaf(env: Env, st: State) {
    st.aeadReady && (StuckWith(env.gcm, st.ar, BadLength) || StuckWith(env.gcm, st.ar, OpenFailed))
  }

  lemma FailingReadDeafens(env: Env, st: State, b: Bytes)
    requires st.aeadReady && Feed(env.gcm, st.ar, b).status in {BadLength, OpenFailed}
    ensures var h := HandleRaw(env, st, b); Deaf(env, h.st) && h.st.dispatched == st.dispatched
  {
    DrainFailsStuck(env.gcm, Buffer(st.ar, b));
  }

  lemma DeafRead(env: Env, st: State, b: Bytes)
    requires Deaf(env, st)
    ensures var h := Handle(env, st, b); Deaf(env, h.st) && h.st.dispatched == st.dispatched
  {
    var seen := !st.magicSeen && StartsWithMagic(b);
    var p := if seen then b[|MAGIC|..] else b;
    StepThenMore(env.gcm, st.ar, p);
  }

  /** Such a client never dispatches anything again, whatever arrives and however it is cut. */
  lemma {:induction false} DeafForever(env: Env, st: State, later: seq<Bytes>)
    requires Deaf(env, st)
    ensures Run(env, st, later).dispatched == st.dispatched
    decreases later
  {
    if later == [] {
    } else {
      DeafRead(env, st, later[0]);
      DeafForever(env, Handle(env, st, later[0]).st, later[1..]);
    }
  }

  /**
   On a connection with a bad frame exactly the messages completed before the read that brings it to light
   are dispatched, for every cutting of what came before and of what comes later.
   */
  lemma DispatchedBeforeFailure(env: Env, st: State, before: seq<Bytes>, bad: Bytes, later: seq<Bytes>)
    requires Good(st) && before != [] && NoMagicRead(st, before + [bad])
    requires HandleRaw(env, st, Concat(before)).clean
    requires var u := HandleRaw(env, st, Concat(before)).st;
             u.aeadReady && Feed(env.gcm, u.ar, bad).status in {BadLength, OpenFailed}
    ensures Run(env, st, before + ([bad] + later)).dispatched == HandleRaw(env, st, Concat(before)).st.dispatched
  {
    assert forall i :: 0 <= i < |before| ==> before[i] == (before + [bad])[i];
    assert (before + [bad])[|before|] == bad;
    ChunkIndependence(env, st, before);
    assert Concat(before) + [] == Concat(before);
    HandleInTwo(env, st, Concat(before), []);
    RunInTwo(env, st, before, [bad] + later);
    var u := Run(env, st, before);
    FailingReadDeafens(env, u, bad);
    assert ([bad] + later)[1..] == later;
    DeafForever(env, HandleRaw(env, u, bad).st, later);
  }

  lemma {:induction false} AllTranslated(msgs: seq<Message>)
    ensures |V1s(msgs)| == |msgs|
  {
    if msgs == [] {
    } else {
      AllTranslated(msgs[1..]);
    }
  }

  /** A successful read in AEAD mode dispatches the messages that its plaintext completes. */
  lemma SealedMessages(env: Env, st: State, b: Bytes, msgs: seq<Message>, tail: Bytes)
    requires Ready(st) && st.isLogin && ParseFrame(st.rx).Incomplete?
    requires AllSendable(msgs) && ParseFrame(tail).Incomplete?
    requires var o := Feed(env.gcm, st.ar, b); o.status == Fed && st.rx + o.reader.pt == Frames(msgs) + tail
    ensures HandleRaw(env, st, b) ==
            Result(st.(rx := tail, dispatched := st.dispatched + V1s(msgs),
                       ar := Feed(env.gcm, st.ar, b).reader.(pt := [])), true)
  {
    var o := Feed(env.gcm, st.ar, b);
    var st1 := st.(rx := st.rx + o.reader.pt, ar := o.reader.(pt := []));
    ReadyDispatchesAll(env, st1, msgs, tail);
    if o.reader.pt == [] {
      assert st.rx + [] == st.rx;
      assert OneTurn(env, st1) == Wait;
    }
  }

  /**
   When a read ends in a bad frame, the messages in front of that frame are never dispatched, whatever comes
   later; had the read been cut in between, they would have been. So cutting a failing read changes nothing
   if and only if no message ends in its good part.
   */
  lemma FailedReadLosesMessages(env: Env, st: State, a: Bytes, b: Bytes, msgs: seq<Message>, tail: Bytes,
                                later: seq<Bytes>)
    requires Good(st) && st.aeadReady
    requires Feed(env.gcm, st.ar, a).status == Fed
    requires Feed(env.gcm, st.ar, a + b).status in {BadLength, OpenFailed}
    requires AllSendable(msgs) && ParseFrame(tail).Incomplete?
    requires st.rx + Feed(env.gcm, st.ar, a).reader.pt == Frames(msgs) + tail
    ensures var whole := Run(env, HandleRaw(env, st, a + b).st, later).dispatched;
            var cut := Run(env, HandleRaw(env, HandleRaw(env, st, a).st, b).st, later).dispatched;
            whole == st.dispatched && cut == st.dispatched + V1s(msgs) && (whole == cut <==> msgs == [])
  {
    FailingReadDeafens(env, st, a + b);
    DeafForever(env, HandleRaw(env, st, a + b).st, later);
    SealedMessages(env, st, a, msgs, tail);
    FeedAfterFed(env.gcm, st.ar, a, b);
    var h := HandleRaw(env, st, a);
    FailingReadDeafens(env, h.st, b);
    DeafForever(env, HandleRaw(env, h.st, b).st, later);
    AllTranslated(msgs);
  }

  /**
   A read that runs the counter over is not lost but late: nothing of it is dispatched at once, and the
   next successful read dispatches its messages first.
   */
  lemma WrappedReadIsLate(env: Env, st: State, b: Bytes, c: Bytes, msgs: seq<Message>, tail: Bytes)
    requires Good(st) && st.aeadReady && Feed(env.gcm, st.ar, b).status == Wrapped
    requires AllSendable(msgs) && ParseFrame(tail).Incomplete?
    requires var o := Feed(env.gcm, Feed(env.gcm, st.ar, b).reader, c);
             o.status == Fed && st.rx + o.reader.pt == Frames(msgs) + tail
    ensures var h := HandleRaw(env, st, b);
            && h.st.dispatched == st.dispatched
            && HandleRaw(env, h.st, c).st.dispatched == st.dispatched + V1s(msgs)
            && Feed(env.gcm, st.ar, b).reader.pt <= Feed(env.gcm, h.st.ar, c).reader.pt
  {
    var o := Feed(env.gcm, st.ar, b);
    SealedMessages(env, st.(ar := o.reader), c, msgs, tail);
    DrainKeepsPlain(env.gcm, Buffer(o.reader.(pt := []), c), o.reader.pt);
    assert o.reader.pt + [] == o.reader.pt;
  }

  // ---- The stateful session ----

  class V2Session {
    var rx: Bytes
    var magicSeen: bool
    var gotHello: bool
    var aeadReady: bool
    var isLogin: bool
    var ar: Reader
    var dispatched: seq<Bytes>

    ghost function View(): State
      reads this
    {
      State(rx, magicSeen, gotHello, aeadReady, isLogin, ar, dispatched)
    }

    constructor ()
      ensures View() == Start()
    {
      rx, magicSeen, gotHello, aeadReady, isLogin := [], false, false, false, false;
      ar, dispatched := FreshReader([]), [];
    }

    method DispatchV1(env: Env, v1: Bytes)
      requires |v1| >= 9
      modifies this`isLogin, this`dispatched
      ensures View() == Dispatch(env, old(View()), v1)
    {
      dispatched := dispatched + [v1];
      if !isLogin {
        if v1[0] == '1' as int && env.loginOk(v1[9..]) {
          isLogin := true;
        }
      }
    }

    /** What one complete frame does; `false` is an early return. */
    method TakeFrame(env: Env, p: Parse) returns (go: bool)
      requires p == ParseFrame(rx) && p.Frame?
      modifies this
      ensures OneTurn(env, old(View())) == if go then AfterFrame(View()) else Fail(View())
      ensures aeadReady == old(aeadReady) && |rx| < old(|rx|)
    {
      if !gotHello {
        var key := if p.ftype == FRAME_SERVER_HELLO then env.helloKey(p.payload) else None;
        if key.None? {
          rx := rx[p.consumed..];
          return false;
        }
        gotHello, ar := true, FreshReader(key.value);
      } else if p.ftype == FRAME_MESSAGE {
        var v1 := PayloadToV1(p.payload);
        if v1.Some? {
          DispatchV1(env, v1.value);
        }
      }
      rx := rx[p.consumed..];
      return true;
    }

    method ConsumePlainFrames(env: Env)
      modifies this
      ensures View() == Consume(env, old(View())).st
      decreases !aeadReady, |rx|
    {
      ghost var goal := Consume(env, View()).st;
      while |rx| >= 8
        invariant Consume(env, View()).st == goal
        invariant aeadReady == old(aeadReady) && |rx| <= old(|rx|)
        decreases |rx|
      {
        var p := ParseFrame(rx);
        if p.Incomplete? {
          return;
        }
        if p.Invalid? {
          rx := [];
          return;
        }
        var go := TakeFrame(env, p);
        if !go {
          return;
        }
        if isLogin && gotHello && !aeadReady {
          aeadReady := true;
          SwitchToAead(env);
          return;
        }
      }
    }

    /** The unread rest of the plaintext buffer already belongs to the AEAD stream. */
    method SwitchToAead(env: Env)
      requires aeadReady
      modifies this
      ensures View() ==
              var s := old(View());
              if s.rx == [] then s
              else
                var o := Feed(env.gcm, s.ar, s.rx);
                if o.status == Fed && o.reader.pt != [] then
                  Consume(env, s.(ar := o.reader.(pt := []), rx := o.reader.pt)).st
                else s.(ar := o.reader, rx := [])
      decreases true, 0
    {
      if rx != [] {
        var o := Feed(env.gcm, ar, rx);
        ar := o.reader;
        if o.status == Fed && ar.pt != [] {
          rx, ar := ar.pt, ar.(pt := []);
          ConsumePlainFrames(env);
          return;
        }
        rx := [];
      }
    }

    method HandleBytes(env: Env, buf: Bytes)
      modifies this
      ensures View() == Handle(env, old(View()), buf).st
    {
      var p := buf;
      if !magicSeen && StartsWithMagic(buf) {
        p := buf[|MAGIC|..];
        magicSeen := true;
      }
      if aeadReady {
        var o := Feed(env.gcm, ar, p);
        ar := o.reader;
        if o.status != Fed {
          return;
        }
        if ar.pt != [] {
          rx, ar := rx + ar.pt, ar.(pt := []);
          ConsumePlainFrames(env);
        }
        return;
      }
      rx := rx + p;
      ConsumePlainFrames(env);
    }
  }
}
