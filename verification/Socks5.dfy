/**
 The SOCKS5 front end of a proxy (src/proxy_tcp.c, `handle_socks5` and `parse_socks5_addr`; src/client.c,
 `handle_post_connection_data`): greeting and request are gathered in a staging buffer, payload that is
 early is kept, everything else goes straight to the local connection.
 */
module Socks5 {
  import opened Bytes

  const ADDRESS_LEN := 20
  const MAX_DOMAIN_LEN := 253

  // ---- Addresses ----

  datatype Address = Address(kind: Byte, bytes: Bytes, port: Bytes)

  /** An address at the front of `b` and the bytes it takes, or `None` for "wait or give up". */
  function ParseAddress(b: Bytes): (r: Option<(Address, nat)>)
    requires b != []
    ensures r.Some? ==> 5 <= r.value.1 <= |b|
  {
    if b[0] == 1 then
      if |b| < 7 then None else Some((Address(1, b[1..5], b[5..7]), 7))
    else if b[0] == 4 then
      if |b| < 19 then None else Some((Address(4, b[1..17], b[17..19]), 19))
    else if b[0] == 3 then
      if |b| < 2 || b[1] == 0 || b[1] > MAX_DOMAIN_LEN || b[1] > ADDRESS_LEN then None
      else
        var n := b[1] as int;
        if |b| < 2 + n + 2 then None else Some((Address(3, b[2..2 + n], b[2 + n..4 + n]), 4 + n))
    else None
  }

  /** The address as a SOCKS5 peer writes it (section 5 of RFC 1928). */
  function EncodeAddress(a: Address): Bytes {
    if a.kind == 3 then [3, if |a.bytes| < 256 then |a.bytes| else 255] + a.bytes + a.port
    else [a.kind] + a.bytes + a.port
  }

  /** What the client has room for: IPv4, IPv6, or a domain of 1 to 20 bytes. */
  predicate Acceptable(a: Address) {
    && |a.port| == 2
    && match a.kind
       case 1 => |a.bytes| == 4
       case 4 => |a.bytes| == 16
       case 3 => 1 <= |a.bytes| <= ADDRESS_LEN
       case _ => false
  }

  /** Every acceptable address is read back from its encoding, whatever follows it. */
  lemma AddressRoundTrip(a: Address, rest: Bytes)
    requires Acceptable(a)
    ensures ParseAddress(EncodeAddress(a) + rest) == Some((a, |EncodeAddress(a)|))
  {
    var n := |a.bytes|;
    if a.kind == 3 {
      Fields([3, n], a.bytes, a.port, rest);
    } else {
      Fields([a.kind], a.bytes, a.port, rest);
    }
  }

  lemma Fields(head: Bytes, x: Bytes, y: Bytes, rest: Bytes)
    ensures var b := head + x + y + rest;
            && b[..|head|] == head && b[|head|..|head + x|] == x && b[|head + x|..|head + x + y|] == y
  {}

  /** Bytes no continuation of which is ever an address: bad type, or a domain the client has no room for. */
  predicate Hopeless(b: Bytes) {
    b != [] && (b[0] !in {1, 3, 4} || (b[0] == 3 && |b| >= 2 && (b[1] == 0 || b[1] > ADDRESS_LEN)))
  }

  lemma ParseThenMore(b: Bytes, more: Bytes)
    requires b != [] && ParseAddress(b).Some?
    ensures ParseAddress(b + more) == ParseAddress(b)
  {
    var c := b + more;
    assert c[0] == b[0] && c[1] == b[1];
    if b[0] == 1 {
      assert c[1..5] == b[1..5] && c[5..7] == b[5..7];
    } else if b[0] == 4 {
      assert c[1..17] == b[1..17] && c[17..19] == b[17..19];
    } else {
      var n := b[1] as int;
      assert c[2..2 + n] == b[2..2 + n] && c[2 + n..4 + n] == b[2 + n..4 + n];
    }
  }

  /** A cut address is not taken for a shorter one. */
  lemma PrefixNotParsed(b: Bytes, k: nat)
    requires b != [] && ParseAddress(b).Some? && ParseAddress(b).value.1 == |b| && 0 < k < |b|
    ensures ParseAddress(b[..k]).None?
  {}

  /** The parser can still succeed if and only if the bytes so far are not hopeless. */
  lemma HopelessIff(b: Bytes)
    requires b != []
    ensures Hopeless(b) <==> forall more: Bytes :: ParseAddress(b + more).None?
  {
    if Hopeless(b) {
      forall more: Bytes ensures ParseAddress(b + more).None? {
        assert (b + more)[0] == b[0];
        if |b| >= 2 {
          assert (b + more)[1] == b[1];
        }
      }
    } else {
      var more: Bytes := seq(24, _ => 1);
      assert (b + more)[0] == b[0];
      if |b| >= 2 {
        assert (b + more)[1] == b[1];
      } else {
        assert (b + more)[1] == 1;
      }
      assert ParseAddress(b + more).Some?;
    }
  }

  // ---- The state machine ----

  datatype Phase = Init | Handshake | Connect | Established | Closed

  /**
   `buf` is the staging buffer, `local` all bytes written towards the local service, `replies` the number of
   greeting replies sent. `gone` says that the local connection has been lost, and `unread` collects the bytes
   that were left in the source.
   */
  datatype Client = Client(phase: Phase, buf: Bytes, local: Bytes, replies: nat, gone: bool, unread: Bytes)

  function Start(): Client {
    Client(Init, [], [], 0, false, [])
  }

  function Greet(c: Client): Client
    requires c.phase == Init
  {
    if |c.buf| < 3 then c
    else if c.buf[0] != 5 then c.(phase := Closed)
    else
      var c1 := c.(replies := c.replies + 1);
      var consumed := 2 + c.buf[1] as int;
      if |c.buf| < consumed then c1 else c1.(buf := c.buf[consumed..], phase := Handshake)
  }

  /** `connectOk` says whether the connection to the requested address could be started. */
  function Request(c: Client, connectOk: bool): Client
    requires c.phase == Handshake
  {
    if |c.buf| < 4 then c
    else if c.buf[..3] != [5, 1, 0] then c.(phase := Closed)
    else
      var a := ParseAddress(c.buf[3..]);
      if a.None? || !connectOk then c
      else c.(local := c.local + c.buf[3 + a.value.1..], buf := [], phase := Connect)
  }

  /** One delivery of payload bytes from the server side. */
  function Receive(c: Client, data: Bytes, connectOk: bool): Client {
    if data == [] then c
    else if c.phase == Established then
      if c.gone then c.(unread := c.unread + data) else c.(local := c.local + data)
    else
      Parse(c.(buf := c.buf + data), connectOk)
  }

  /** What the staging buffer allows: the greeting, and then the request if it is already there. */
  function Parse(c: Client, connectOk: bool): Client {
    var c' := if c.phase == Init then Greet(c) else c;
    if c'.phase == Handshake then Request(c', connectOk) else c'
  }

  /** The local connection is up: what is staged is written, and forwarding begins. */
  function Connected(c: Client): Client {
    c.(local := c.local + c.buf, buf := [], phase := Established)
  }

  /** Only a client that has started a local connection can be told that it is up, or that it is gone. */
  datatype Event = Data(bytes: Bytes, connectOk: bool) | Up | Gone

  function Step(c: Client, e: Event): Client {
    match e
    case Data(bytes, connectOk) => Receive(c, bytes, connectOk)
    case Up => if c.phase == Connect && !c.gone then Connected(c) else c
    case Gone => if c.phase in {Connect, Established} then c.(gone := true) else c
  }

  function Run(c: Client, es: seq<Event>): Client
    decreases es
  {
    if es == [] then c else Run(Step(c, es[0]), es[1..])
  }

  function Received(es: seq<Event>): Bytes {
    if es == [] then [] else (if es[0].Data? then es[0].bytes else []) + Received(es[1..])
  }

  // ---- Conservation ----

  /** Version, number of methods, methods (section 3 of RFC 1928). */
  predicate IsGreeting(g: Bytes) {
    |g| >= 2 && g[0] == 5 && |g| == 2 + g[1] as int
  }

  /** CONNECT with an address the client accepts (sections 4 and 5 of RFC 1928). */
  predicate IsRequest(r: Bytes) {
    && |r| >= 8 && r[..3] == [5, 1, 0]
    && ParseAddress(r[3..]).Some? && ParseAddress(r[3..]).value.1 == |r| - 3
  }

  /** Payload staged behind the handshake. */
  function Staged(c: Client, r: Bytes): Bytes {
    match c.phase
    case Connect => c.buf
    case Handshake => if |c.buf| >= |r| then c.buf[|r|..] else []
    case _ => []
  }

  /** The payload part of what has been received. */
  function Payload(g: Bytes, r: Bytes, got: Bytes): Bytes {
    if |got| >= |g| + |r| then got[|g| + |r|..] else []
  }

  /** Where the client stands after receiving `got`. */
  predicate Holds(c: Client, g: Bytes, r: Bytes, got: Bytes) {
    match c.phase
    case Init => c.buf == got && c.local == [] && (|got| < 3 || |got| < |g|) && c.unread == [] && !c.gone
    case Handshake => got == g + c.buf && c.local == [] && c.unread == [] && !c.gone
    case Connect => got == g + r + c.local + c.buf && c.unread == []
    case Established => got == g + r + c.local + c.unread && c.buf == [] && (c.unread != [] ==> c.gone)
    case Closed => false
  }

  lemma RequestParsed(r: Bytes, more: Bytes)
    requires IsRequest(r)
    ensures var b := r + more;
            && b[..3] == [5, 1, 0] && ParseAddress(b[3..]) == ParseAddress(r[3..])
            && b[3 + ParseAddress(b[3..]).value.1..] == more
  {
    assert (r + more)[..3] == r[..3];
    assert (r + more)[3..] == r[3..] + more;
    ParseThenMore(r[3..], more);
  }

  lemma RequestCut(r: Bytes, k: nat)
    requires IsRequest(r) && 4 <= k < |r|
    ensures r[..k][..3] == [5, 1, 0] && ParseAddress(r[..k][3..]).None?
  {
    assert r[..k][..3] == r[..3];
    assert r[..k][3..] == r[3..][..k - 3];
    PrefixNotParsed(r[3..], k - 3);
  }

  lemma RequestStep(c: Client, g: Bytes, r: Bytes, got: Bytes, connectOk: bool)
    requires IsRequest(r) && c.phase == Handshake && c.local == [] && got == g + c.buf && c.unread == [] && !c.gone
    requires c.buf <= r || r <= c.buf
    ensures Holds(Request(c, connectOk), g, r, got)
    ensures connectOk && |got| >= |g| + |r| ==> Request(c, connectOk).phase == Connect
  {
    if |c.buf| >= |r| {
      var more := c.buf[|r|..];
      assert c.buf == r + more;
      RequestParsed(r, more);
      assert got == g + r + more + [];
      assert [] + more == more;
    } else if |c.buf| >= 4 {
      assert c.buf == r[..|c.buf|];
      RequestCut(r, |c.buf|);
    }
  }

  lemma GreetStep(c: Client, g: Bytes, rest: Bytes)
    requires IsGreeting(g) && c.phase == Init && c.local == [] && (c.buf <= g || c.buf == g + rest)
    ensures var c' := Greet(c);
            && c'.local == [] && c'.unread == c.unread && c'.gone == c.gone
            && if |c.buf| < 3 || |c.buf| < |g| then c'.phase == Init && c'.buf == c.buf
               else c'.phase == Handshake && g + c'.buf == c.buf
  {
    if |c.buf| >= 3 && |c.buf| >= |g| {
      assert c.buf[0] == g[0] && c.buf[1] == g[1];
      assert c.buf == g + c.buf[|g|..];
    } else if |c.buf| >= 2 {
      assert c.buf[0] == g[0] && c.buf[1] == g[1];
    }
  }

  lemma EstablishedStep(front: Bytes, local: Bytes, unread: Bytes, data: Bytes)
    ensures front + local + unread + data == front + local + (unread + data)
    ensures unread == [] ==> front + local + unread + data == front + (local + data) + unread
  {}

  lemma ReceiveStep(c: Client, g: Bytes, r: Bytes, p: Bytes, got: Bytes, data: Bytes, connectOk: bool)
    requires IsGreeting(g) && IsRequest(r) && Holds(c, g, r, got) && got + data <= g + r + p
    ensures Holds(Receive(c, data, connectOk), g, r, got + data)
    ensures data != [] && connectOk && |got + data| >= |g| + |r| ==>
              Receive(c, data, connectOk).phase in {Connect, Established}
  {
    var all := got + data;
    var c1 := c.(buf := c.buf + data);
    if data == [] {
      assert all == got;
    } else if c.phase == Established {
      EstablishedStep(g + r, c.local, c.unread, data);
    } else if c.phase == Connect {
      Assoc(g + r + c.local, c.buf, data);
    } else {
      var tail := (g + r + p)[|g|..];
      assert g + r + p == g + tail && tail == r + p;
      var c2 := c1;
      if c.phase == Init {
        assert all == c1.buf;
        if |all| >= |g| {
          assert all == g + all[|g|..];
        }
        GreetStep(c1, g, if |all| >= |g| then all[|g|..] else []);
        c2 := Greet(c1);
      } else {
        Assoc(g, c.buf, data);
      }
      if c2.phase == Handshake {
        assert c2.buf == all[|g|..];
        assert c2.buf <= r + p;
        RequestStep(c2, g, r, all, connectOk);
      }
    }
  }

  lemma UpStep(c: Client, g: Bytes, r: Bytes, got: Bytes)
    requires Holds(c, g, r, got) && c.phase in {Connect, Established}
    ensures Holds(Connected(c), g, r, got)
  {
    if c.phase == Connect {
      Assoc(g + r, c.local, c.buf);
      assert g + r + (c.local + c.buf) + [] == g + r + (c.local + c.buf);
    } else {
      assert c.local + [] == c.local;
    }
  }

  lemma {:induction false} RunHolds(c: Client, g: Bytes, r: Bytes, p: Bytes, got: Bytes, es: seq<Event>)
    requires IsGreeting(g) && IsRequest(r) && Holds(c, g, r, got) && got + Received(es) <= g + r + p
    ensures Holds(Run(c, es), g, r, got + Received(es))
    decreases es
  {
    if es == [] {
      assert got + [] == got;
    } else {
      var b := if es[0].Data? then es[0].bytes else [];
      Assoc(got, b, Received(es[1..]));
      assert got + b <= got + b + Received(es[1..]);
      if es[0].Data? {
        ReceiveStep(c, g, r, p, got, b, es[0].connectOk);
      } else {
        assert got + b == got;
        if es[0].Up? && c.phase == Connect && !c.gone {
          UpStep(c, g, r, got);
        }
      }
      RunHolds(Step(c, es[0]), g, r, p, got + b, es[1..]);
    }
  }

  lemma HeldPayload(c: Client, g: Bytes, r: Bytes, p: Bytes, got: Bytes)
    requires Holds(c, g, r, got) && |r| >= 8 && got <= g + r + p
    ensures c.local + Staged(c, r) + c.unread == Payload(g, r, got)
  {
    match c.phase
    case Handshake =>
      if |c.buf| >= |r| {
        assert got[|g| + |r|..] == c.buf[|r|..];
      }
    case Connect => assert got[|g| + |r|..] == c.local + c.buf;
    case Established => assert got[|g| + |r|..] == c.local + c.unread;
    case _ =>
  }

  /**
   Payload conservation: for a valid greeting and request followed by any payload, under every cutting into
   deliveries, whenever the local connection comes up or is lost and however often it fails to start, the bytes
   written to the local side, those staged and those left unread are together exactly the payload so far, and
   none is left unread before the local connection is lost.
   */
  lemma PayloadConserved(g: Bytes, r: Bytes, p: Bytes, es: seq<Event>)
    requires IsGreeting(g) && IsRequest(r) && Received(es) <= g + r + p
    ensures var c := Run(Start(), es);
            && c.local + Staged(c, r) + c.unread == Payload(g, r, Received(es)) && c.phase != Closed
            && (!c.gone ==> c.unread == [])
  {
    assert [] + Received(es) == Received(es);
    RunHolds(Start(), g, r, p, [], es);
    HeldPayload(Run(Start(), es), g, r, p, Received(es));
  }

  /** Once the request is in and the connection is up, nothing is staged: all payload has been delivered. */
  lemma PayloadDelivered(g: Bytes, r: Bytes, p: Bytes, es: seq<Event>, data: Bytes)
    requires IsGreeting(g) && IsRequest(r) && data != []
    requires Received(es) + data <= g + r + p && |Received(es) + data| >= |g| + |r| && !Run(Start(), es).gone
    ensures var c := Connected(Receive(Run(Start(), es), data, true));
            c.phase == Established && c.local == (Received(es) + data)[|g| + |r|..]
  {
    assert [] + Received(es) == Received(es);
    assert Received(es) <= Received(es) + data;
    RunHolds(Start(), g, r, p, [], es);
    LastDelivery(Run(Start(), es), g, r, p, Received(es), data);
  }

  lemma LastDelivery(c: Client, g: Bytes, r: Bytes, p: Bytes, got: Bytes, data: Bytes)
    requires IsGreeting(g) && IsRequest(r) && data != [] && Holds(c, g, r, got) && !c.gone
    requires got + data <= g + r + p && |got + data| >= |g| + |r|
    ensures Connected(Receive(c, data, true)).local == (got + data)[|g| + |r|..]
  {
    ReceiveStep(c, g, r, p, got, data, true);
    ReceiveKeepsGone(c, data, true);
    DeliveredWhole(Receive(c, data, true), g, r, p, got + data);
  }

  lemma ReceiveKeepsGone(c: Client, data: Bytes, connectOk: bool)
    ensures Receive(c, data, connectOk).gone == c.gone
  {}

  lemma DeliveredWhole(c: Client, g: Bytes, r: Bytes, p: Bytes, got: Bytes)
    requires Holds(c, g, r, got) && |r| >= 8 && got <= g + r + p && |got| >= |g| + |r|
    requires c.phase in {Connect, Established} && !c.gone
    ensures Connected(c).local == got[|g| + |r|..]
  {
    HeldPayload(c, g, r, p, got);
    assert c.local + c.buf + [] == c.local + c.buf;
  }

  // ---- After the local connection is lost ----

  lemma {:induction false} RunInTwo(c: Client, a: seq<Event>, b: seq<Event>)
    ensures Run(c, a + b) == Run(Run(c, a), b)
    ensures Received(a + b) == Received(a) + Received(b)
    decreases a
  {
    if a == [] {
      assert a + b == b && [] + Received(b) == Received(b);
    } else {
      assert (a + b)[1..] == a[1..] + b;
      RunInTwo(Step(c, a[0]), a[1..], b);
      Assoc(if a[0].Data? then a[0].bytes else [], Received(a[1..]), Received(b));
    }
  }

  /** From then on nothing reaches the local side: payload is staged for ever, or not even read. */
  lemma {:induction false} RunGone(c: Client, es: seq<Event>)
    requires c.gone && c.phase in {Connect, Established}
    ensures Run(c, es) == if c.phase == Connect then c.(buf := c.buf + Received(es))
                          else c.(unread := c.unread + Received(es))
    decreases es
  {
    if es == [] {
      assert c.buf + [] == c.buf && c.unread + [] == c.unread;
    } else {
      var b := if es[0].Data? then es[0].bytes else [];
      assert b == [] ==> c.buf + b == c.buf && c.unread + b == c.unread;
      var c1 := if c.phase == Connect then c.(buf := c.buf + b) else c.(unread := c.unread + b);
      assert Step(c, es[0]) == c1;
      RunGone(c1, es[1..]);
      Assoc(c.buf, b, Received(es[1..]));
      Assoc(c.unread, b, Received(es[1..]));
    }
  }

  /**
   When the local side hangs up, what was written stays, and later payload is still read if and only if the
   client was not yet forwarding; so written and staged bytes keep being the whole payload exactly then, or when
   nothing more arrives.
   */
  lemma HangUpStopsReading(g: Bytes, r: Bytes, p: Bytes, before: seq<Event>, later: seq<Event>)
    requires IsGreeting(g) && IsRequest(r) && Received(before) + Received(later) <= g + r + p
    requires Run(Start(), before).phase in {Connect, Established} && !Run(Start(), before).gone
    ensures var c := Run(Start(), before);
            var u := Run(Start(), before + ([Gone] + later));
            && u.local == c.local
            && u.unread == (if c.phase == Established then Received(later) else [])
            && (u.local + Staged(u, r) == Payload(g, r, Received(before) + Received(later)) <==>
                c.phase == Connect || Received(later) == [])
  {
    var c, all := Run(Start(), before), before + ([Gone] + later);
    RunInTwo(Start(), before, [Gone] + later);
    assert ([Gone] + later)[1..] == later && [] + Received(later) == Received(later);
    RunGone(c.(gone := true), later);
    PayloadConserved(g, r, p, all);
    assert Received(before) <= Received(before) + Received(later);
    PayloadConserved(g, r, p, before);
    assert [] + Received(later) == Received(later);
    var u := Run(Start(), all);
    assert u.unread == [] ==> u.local + Staged(u, r) + u.unread == u.local + Staged(u, r);
  }

  // ---- Requests that are never answered ----

  /**
   A request whose address is hopeless -- an unknown type, or a domain longer than the 20 bytes the client
   keeps -- is neither refused nor served: whatever follows, the client waits in the handshake.
   */
  lemma {:induction false} HopelessRequestStalls(c: Client, es: seq<Event>)
    requires c.phase == Handshake && |c.buf| >= 4 && c.buf[..3] == [5, 1, 0] && Hopeless(c.buf[3..])
    ensures Run(c, es) == c.(buf := c.buf + Received(es))
    decreases es
  {
    if es == [] {
      assert c.buf + [] == c.buf;
    } else {
      var b := if es[0].Data? then es[0].bytes else [];
      var c1 := c.(buf := c.buf + b);
      assert c1.buf[..3] == c.buf[..3] && c1.buf[3..] == c.buf[3..] + b;
      HopelessIff(c.buf[3..]);
      assert b == [] ==> c.buf + b == c.buf;
      assert Hopeless(c1.buf[3..]);
      assert Step(c, es[0]) == c1;
      HopelessRequestStalls(c1, es[1..]);
      Assoc(c.buf, b, Received(es[1..]));
    }
  }

  // ---- Clients that are turned away ----

  /** A client turned away is not served again: nothing is written and no reply is sent, whatever arrives. */
  lemma {:induction false} ClosedForGood(c: Client, es: seq<Event>)
    requires c.phase == Closed
    ensures Run(c, es) == c.(buf := c.buf + Received(es))
    decreases es
  {
    if es == [] {
      assert c.buf + [] == c.buf;
    } else {
      var b := if es[0].Data? then es[0].bytes else [];
      assert b == [] ==> c.buf + b == c.buf;
      assert Step(c, es[0]) == c.(buf := c.buf + b);
      ClosedForGood(c.(buf := c.buf + b), es[1..]);
      Assoc(c.buf, b, Received(es[1..]));
    }
  }

  /** A greeting of another version is turned away as soon as three bytes are there. */
  lemma OtherVersionTurnedAway(c: Client, data: Bytes, connectOk: bool, later: seq<Event>)
    requires c.phase == Init && data != [] && |c.buf + data| >= 3 && (c.buf + data)[0] != 5
    ensures var u := Run(Receive(c, data, connectOk), later);
            u.phase == Closed && u.local == c.local && u.replies == c.replies
  {
    ClosedForGood(Receive(c, data, connectOk), later);
  }

  /** A request that is no CONNECT is turned away as soon as four bytes are there. */
  lemma OtherRequestTurnedAway(c: Client, data: Bytes, connectOk: bool, later: seq<Event>)
    requires c.phase == Handshake && data != [] && |c.buf + data| >= 4
    requires (c.buf + data)[0] != 5 || (c.buf + data)[1] != 1 || (c.buf + data)[2] != 0
    ensures var u := Run(Receive(c, data, connectOk), later);
            u.phase == Closed && u.local == c.local && u.replies == c.replies
  {
    assert (c.buf + data)[..3] != [5, 1, 0];
    ClosedForGood(Receive(c, data, connectOk), later);
  }

  // ---- The greeting reply ----

  /** Deliveries that end inside the greeting with at least three of its bytes in hand. */
  function EarlyEnds(g: Bytes, got: nat, es: seq<Event>): nat
    decreases es
  {
    if es == [] then 0
    else
      var b := if es[0].Data? then es[0].bytes else [];
      (if b != [] && 3 <= got + |b| < |g| then 1 else 0) + EarlyEnds(g, got + |b|, es[1..])
  }

  /** Behind the greeting no reply is sent. */
  lemma {:induction false} NoMoreReplies(c: Client, g: Bytes, got: nat, es: seq<Event>)
    requires c.phase != Init && got >= |g|
    ensures Run(c, es).replies == c.replies && Run(c, es).phase != Init && EarlyEnds(g, got, es) == 0
    decreases es
  {
    if es == [] {
    } else {
      var b := if es[0].Data? then es[0].bytes else [];
      NoMoreReplies(Step(c, es[0]), g, got + |b|, es[1..]);
    }
  }

  /** One delivery while the greeting is gathered. */
  lemma GreetingDelivery(c: Client, g: Bytes, b: Bytes, connectOk: bool, more: Bytes)
    requires IsGreeting(g) && c.phase == Init && c.local == [] && b != [] && g <= c.buf + b + more
    ensures var c' := Receive(c, b, connectOk);
            var n := |c.buf + b|;
            && c'.replies == c.replies + (if n >= 3 then 1 else 0)
            && if n < 3 || n < |g| then c' == c.(buf := c.buf + b, replies := c'.replies) else c'.phase != Init
  {
    var all := c.buf + b;
    assert all <= all + more;
    if |all| >= |g| {
      assert all == g + all[|g|..];
    } else {
      assert all <= g;
    }
    GreetStep(c.(buf := all), g, if |all| >= |g| then all[|g|..] else []);
  }

  lemma {:induction false} RepliesSoFar(c: Client, g: Bytes, es: seq<Event>)
    requires IsGreeting(g) && c.phase == Init && c.local == [] && (|c.buf| < 3 || |c.buf| < |g|)
    requires g <= c.buf + Received(es) && |c.buf + Received(es)| >= 3
    ensures Run(c, es).replies == c.replies + EarlyEnds(g, |c.buf|, es) + 1 && Run(c, es).phase != Init
    decreases es
  {
    assert c.buf + [] == c.buf;
    var b := if es[0].Data? then es[0].bytes else [];
    Assoc(c.buf, b, Received(es[1..]));
    var c1 := Step(c, es[0]);
    if b == [] {
      assert c.buf + b == c.buf;
      RepliesSoFar(c, g, es[1..]);
    } else {
      GreetingDelivery(c, g, b, es[0].connectOk, Received(es[1..]));
      if c1.phase == Init {
        RepliesSoFar(c1, g, es[1..]);
      } else {
        NoMoreReplies(c1, g, |c.buf + b|, es[1..]);
      }
    }
  }

  /**
   The reply to the greeting is written before the greeting is known to be complete: once it has arrived,
   whatever else has and in whatever deliveries, the reply has gone out once plus once for every delivery that
   ended inside the greeting after its third byte. So it is sent exactly once if and only if there is none.
   */
  lemma GreetingReplies(g: Bytes, es: seq<Event>)
    requires IsGreeting(g) && g <= Received(es) && |Received(es)| >= 3
    ensures var c := Run(Start(), es); c.phase != Init && c.replies == 1 + EarlyEnds(g, 0, es)
    ensures Run(Start(), es).replies == 1 <==> EarlyEnds(g, 0, es) == 0
  {
    assert [] + Received(es) == Received(es);
    RepliesSoFar(Start(), g, es);
  }

  // ---- The stateful client ----

  class Socks5Client {
    var phase: Phase
    var buf: Bytes
    var local: Bytes
    var replies: nat
    var gone: bool
    ghost var unread: Bytes

    ghost function View(): Client
      reads this
    {
      Client(phase, buf, local, replies, gone, unread)
    }

    constructor ()
      ensures View() == Start()
    {
      phase, buf, local, replies, gone, unread := Init, [], [], 0, false, [];
    }

    method TakeGreeting() returns (go: bool)
      requires phase == Init
      modifies this
      ensures View() == Greet(old(View())) && (go <==> phase == Handshake)
    {
      if |buf| < 3 {
        return false;
      }
      if buf[0] != 5 {
        phase := Closed;
        return false;
      }
      replies := replies + 1;
      var consumed := 2 + buf[1] as int;
      if |buf| < consumed {
        return false;
      }
      buf := buf[consumed..];
      phase := Handshake;
      return true;
    }

    method TakeRequest(connectOk: bool)
      requires phase == Handshake
      modifies this
      ensures View() == Request(old(View()), connectOk)
    {
      if |buf| < 4 {
        return;
      }
      if buf[0] != 5 || buf[1] != 1 || buf[2] != 0 {
        phase := Closed;
        return;
      }
      assert buf[..3] == [5, 1, 0];
      var a := ParseAddress(buf[3..]);
      if a.None? || !connectOk {
        return;
      }
      buf := buf[3 + a.value.1..];
      assert local + [] == local;
      if |buf| > 0 {
        local := local + buf;
        buf := [];
      }
      phase := Connect;
    }

    /** `left` is what stays in the source. */
    method HandleSocks5(data: Bytes, connectOk: bool) returns (left: Bytes)
      modifies this
      ensures View() == Receive(old(View()), data, connectOk)
      ensures left == if old(phase) == Established && old(gone) then data else []
    {
      left := [];
      if |data| == 0 {
        return;
      }
      if phase == Established {
        if !gone {
          local := local + data;
        } else {
          left, unread := data, unread + data;
        }
        return;
      }
      buf := buf + data;
      ghost var goal := Parse(View(), connectOk);
      while |buf| > 0
        invariant Parse(View(), connectOk) == goal && left == []
        decreases phase == Init
      {
        if phase == Init {
          var go := TakeGreeting();
          if !go {
            break;
          }
          continue;
        }
        if phase == Handshake {
          TakeRequest(connectOk);
        }
        return;
      }
    }

    /** The local connection is closed and forgotten. */
    method HandleHangUp()
      modifies this`gone
      ensures View() == Step(old(View()), Gone)
    {
      if phase == Connect || phase == Established {
        gone := true;
      }
    }

    method HandleConnected()
      modifies this
      ensures View() == Connected(old(View()))
    {
      assert local + [] == local;
      if |buf| > 0 {
        local := local + buf;
        buf := [];
      }
      phase := Established;
    }
  }
}
