/**
 Receive-side credit between this client and a peer that keeps the multiplexer's rules, over two FIFO
 channels (src/tcpmux.c, `process_data` and `send_window_update`).
 */
module Credit {
  import opened Bytes
  import opened MuxFrames
  import opened TcpMux
  import opened TcpMuxSafety

  datatype PeerFrame = PData(n: nat, flags: Flags) | PWindow(n: nat, flags: Flags)

  /**
   One stream seen from both ends: the peer's send window, its frames under way to us, the increments
   under way to it, and the bytes of DATA frames that met a stream no longer there to take them.
   `finSent` and `finSeen` say that the peer's FIN has been sent and has arrived.
   */
  datatype Link = Link(s: Session, id: nat, peer: nat, toUs: seq<PeerFrame>, toPeer: seq<nat>, lost: nat,
                       finSent: bool, finSeen: bool)

  datatype Action = PeerSends(frame: PeerFrame) | Arrives | PeerCredited | Ours(event: Event)

  /** A conforming peer stays within its window, sends no empty DATA, and after FIN no DATA and no second FIN. */
  predicate Allowed(l: Link, a: Action) {
    match a
    case PeerSends(PData(n, f)) => 0 < n <= l.peer && !l.finSent && !f.rst
    case PeerSends(PWindow(_, f)) => l.finSent ==> !f.fin
    case Arrives => l.toUs != []
    case PeerCredited => l.toPeer != []
    case Ours(e) => Enabled(l.s, e) && !((e.EvData? || e.EvWindow? || e.EvFlags?) && e.id == l.id)
  }

  /** The credit in what this side wrote between two states. */
  function NewCredit(s: Session, s': Session, id: nat): seq<nat> {
    var f := Wrote(s, s');
    if f.Some? && f.value.id == id && f.value.kind == WINDOW_UPDATE then [f.value.length] else []
  }

  function Becomes(l: Link, s': Session): Link {
    l.(s := s', toPeer := l.toPeer + NewCredit(l.s, s', l.id))
  }

  function Next(l: Link, a: Action): Link
    requires Allowed(l, a)
  {
    match a
    case PeerSends(frame) =>
      l.(toUs := l.toUs + [frame], peer := l.peer - (if frame.PData? then frame.n else 0),
         finSent := l.finSent || frame.flags.fin)
    case PeerCredited => l.(peer := l.peer + l.toPeer[0], toPeer := l.toPeer[1..])
    case Ours(e) => Becomes(l, Step(l.s, e))
    case Arrives =>
      var frame := l.toUs[0];
      var l1 := l.(toUs := l.toUs[1..], finSeen := l.finSeen || frame.flags.fin);
      if l.id !in l.s.registered || l.id !in l.s.streams then
        l1.(lost := l.lost + if frame.PData? then frame.n else 0)
      else if frame.PWindow? then Becomes(l1, ReceiveWindowUpdate(l.s, l.id, frame.flags, frame.n))
      else
        var (s', taken) := ReceiveData(l.s, l.id, frame.flags, frame.n, false);
        Becomes(l1, s').(lost := l.lost + if taken == Untouched then frame.n else 0)
  }

  function InFlight(q: seq<PeerFrame>): nat {
    if q == [] then 0 else (if q[0].PData? then q[0].n else 0) + InFlight(q[1..])
  }

  function Sum(q: seq<nat>): nat {
    if q == [] then 0 else q[0] + Sum(q[1..])
  }

  lemma {:induction false} InFlightSnoc(q: seq<PeerFrame>, x: PeerFrame)
    ensures InFlight(q + [x]) == InFlight(q) + if x.PData? then x.n else 0
  {
    if q == [] {
    } else {
      assert (q + [x])[1..] == q[1..] + [x];
      InFlightSnoc(q[1..], x);
    }
  }

  lemma {:induction false} SumAppend(q: seq<nat>, r: seq<nat>)
    ensures Sum(q + r) == Sum(q) + Sum(r)
  {
    if q == [] {
      assert q + r == r;
    } else {
      assert (q + r)[1..] == q[1..] + r;
      SumAppend(q[1..], r);
    }
  }

  /** DATA is not empty and carries no RST; after FIN come only window updates without FIN. */
  predicate Ordered(q: seq<PeerFrame>, fin: bool) {
    q != [] ==>
    && (q[0].PData? ==> q[0].n > 0 && !q[0].flags.rst)
    && (fin ==> q[0].PWindow? && !q[0].flags.fin)
    && Ordered(q[1..], fin || q[0].flags.fin)
  }

  predicate FinAfter(q: seq<PeerFrame>, fin: bool) {
    if q == [] then fin else FinAfter(q[1..], fin || q[0].flags.fin)
  }

  lemma {:induction false} OrderedSnoc(q: seq<PeerFrame>, fin: bool, x: PeerFrame)
    requires Ordered(q, fin) && (FinAfter(q, fin) ==> x.PWindow? && !x.flags.fin)
    requires x.PData? ==> x.n > 0 && !x.flags.rst
    ensures Ordered(q + [x], fin) && FinAfter(q + [x], fin) == (FinAfter(q, fin) || x.flags.fin)
    decreases q
  {
    if q == [] {
      assert q + [x] == [x] && [x][1..] == [];
    } else {
      assert (q + [x])[1..] == q[1..] + [x];
      OrderedSnoc(q[1..], fin || q[0].flags.fin, x);
    }
  }

  /** What every reachable state satisfies. */
  predicate Balanced(l: Link) {
    && Tables(l.s) && l.id in l.s.streams
    && l.s.streams[l.id].recvWindow == MAX_STREAM_WINDOW
    && l.peer + InFlight(l.toUs) + Sum(l.toPeer) + l.lost == INITIAL_WINDOW
    && (l.id in l.s.registered ==> l.lost == 0)
    && Ordered(l.toUs, l.finSeen) && FinAfter(l.toUs, l.finSeen) == l.finSent
    && (l.s.streams[l.id].state == RemoteClose ==> l.finSeen)
  }

  /** What a local operation or another stream's frame can do to this stream. */
  predicate Undisturbed(s: Session, s': Session, id: nat) {
    && id in s.streams && id in s'.streams
    && s'.streams[id].recvWindow == s.streams[id].recvWindow
    && (s'.streams[id].state == RemoteClose ==> s.streams[id].state == RemoteClose)
    && (id in s'.registered ==> id in s.registered)
    && Sum(NewCredit(s, s', id)) == 0
  }

  lemma OtherWindow(s: Session, e: Event, id: nat)
    requires Tables(s) && id in s.streams && e.EvWindow? && e.id != id
    ensures Undisturbed(s, Step(s, e), id)
  {
    if !e.flags.syn && e.id in s.registered {
      FlagsMove(s, e.id, e.flags);
      var s1, s2 := WindowMoves(s, e.id, e.flags, e.increment);
      if AcceptsIncrement(s, e.id, e.flags, e.increment) {
        CloseMove(s2, e.id);
      }
    }
  }

  lemma OtherData(s: Session, e: Event, id: nat)
    requires Tables(s) && Enabled(s, e) && id in s.streams && e.EvData? && e.id != id
    ensures Undisturbed(s, Step(s, e), id)
  {
    FlagsMove(s, e.id, e.flags);
    TablesFlags(s, e.id, e.flags);
    var (s1, ok) := ApplyFlags(s, e.id, e.flags);
    if ok && e.id in s1.registered && e.length <= s1.streams[e.id].recvWindow {
      DeliverMove(s1, e.id, e.length, e.short);
    }
  }

  lemma ClosesUndisturbed(s: Session, k: nat, id: nat)
    requires k in s.streams && id in s.streams
    ensures Undisturbed(s, Close(s, k), id) && Undisturbed(s, Announce(s, k), id)
  {}

  lemma WriteUndisturbed(s: Session, k: nat, src: Bytes, hasOut: bool, id: nat)
    requires k in s.streams && id in s.streams
    ensures Undisturbed(s, Write(s, k, src, hasOut).0, id)
  {
    WriteMove(s, k, src, hasOut);
  }

  lemma OursUndisturbed(s: Session, e: Event, id: nat)
    requires Tables(s) && Enabled(s, e) && id in s.streams
    requires !((e.EvData? || e.EvWindow? || e.EvFlags?) && e.id == id)
    ensures Undisturbed(s, Step(s, e), id)
  {
    match e
    case EvOpen(_) => OpenedId(s);
    case EvWrite(k, src, hasOut) => WriteUndisturbed(s, k, src, hasOut, id);
    case EvAnnounce(k) => ClosesUndisturbed(s, k, id);
    case EvClose(k) => ClosesUndisturbed(s, k, id);
    case EvDisconnect(k) => ClosesUndisturbed(Sever(s, k), k, id);
    case EvFlags(k, f) => FlagsMove(s, k, f);
    case EvData(_, _, _, _) => OtherData(s, e, id);
    case EvWindow(_, _, _) => OtherWindow(s, e, id);
    case _ =>
  }

  lemma OursKeeps(l: Link, e: Event)
    requires Balanced(l) && Allowed(l, Ours(e))
    ensures Balanced(Next(l, Ours(e)))
  {
    OursUndisturbed(l.s, e, l.id);
    TablesStep(l.s, e);
    SumAppend(l.toPeer, NewCredit(l.s, Step(l.s, e), l.id));
  }

  /** A whole DATA frame uses and hands back its length; one that kills the stream hands back nothing. */
  lemma DataReturnsCredit(s: Session, id: nat, f: Flags, n: nat)
    requires Tables(s) && id in s.registered && s.streams[id].recvWindow == MAX_STREAM_WINDOW
    requires 0 < n <= INITIAL_WINDOW && !f.rst && !(f.fin && s.streams[id].state == RemoteClose)
    ensures var (s', taken) := ReceiveData(s, id, f, n, false);
            && id in s'.streams && s'.streams[id].recvWindow == MAX_STREAM_WINDOW
            && (taken != Untouched ==> NewCredit(s, s', id) == [n])
            && (taken == Untouched ==> NewCredit(s, s', id) == [] && id !in s'.registered)
            && (s'.streams[id].state == RemoteClose ==> f.fin || s.streams[id].state == RemoteClose)
  {
    FlagsMove(s, id, f);
    TablesFlags(s, id, f);
  }

  lemma WindowFrameKeeps(s: Session, id: nat, f: Flags, n: nat)
    requires Tables(s) && id in s.registered
    ensures var s' := ReceiveWindowUpdate(s, id, f, n);
            && id in s'.streams && s'.streams[id].recvWindow == s.streams[id].recvWindow
            && Sum(NewCredit(s, s', id)) == 0
            && (s'.streams[id].state == RemoteClose ==> f.fin || s.streams[id].state == RemoteClose)
            && (id in s'.registered ==> id in s.registered)
  {
    if !f.syn {
      FlagsMove(s, id, f);
      var s1, s2 := WindowMoves(s, id, f, n);
      if AcceptsIncrement(s, id, f, n) {
        CloseMove(s2, id);
      }
    }
  }

  lemma ArrivalKeeps(l: Link)
    requires Balanced(l) && l.toUs != []
    ensures Balanced(Next(l, Arrives))
  {
    var frame := l.toUs[0];
    if l.id in l.s.registered {
      if frame.PWindow? {
        WindowFrameKeeps(l.s, l.id, frame.flags, frame.n);
        TablesWindow(l.s, l.id, frame.flags, frame.n);
        SumAppend(l.toPeer, NewCredit(l.s, ReceiveWindowUpdate(l.s, l.id, frame.flags, frame.n), l.id));
      } else {
        DataReturnsCredit(l.s, l.id, frame.flags, frame.n);
        TablesData(l.s, l.id, frame.flags, frame.n, false);
        SumAppend(l.toPeer, NewCredit(l.s, ReceiveData(l.s, l.id, frame.flags, frame.n, false).0, l.id));
      }
    }
  }

  /** Every step of either party keeps the balance. */
  lemma BalanceKept(l: Link, a: Action)
    requires Balanced(l) && Allowed(l, a)
    ensures Balanced(Next(l, a))
  {
    match a
    case PeerSends(frame) =>
      InFlightSnoc(l.toUs, frame);
      OrderedSnoc(l.toUs, l.finSeen, frame);
    case PeerCredited =>
    case Ours(e) => OursKeeps(l, e);
    case Arrives => ArrivalKeeps(l);
  }

  predicate Possible(l: Link, actions: seq<Action>)
    decreases actions
  {
    actions == [] || (Allowed(l, actions[0]) && Possible(Next(l, actions[0]), actions[1..]))
  }

  function After(l: Link, actions: seq<Action>): Link
    requires Possible(l, actions)
    decreases actions
  {
    if actions == [] then l else After(Next(l, actions[0]), actions[1..])
  }

  /** A stream just opened by this side, and a peer holding the initial window for it. */
  predicate Opening(l: Link) {
    && Tables(l.s) && l.id in l.s.registered
    && l.s.streams[l.id] == Stream(Init, INITIAL_WINDOW, MAX_STREAM_WINDOW)
    && l == Link(l.s, l.id, INITIAL_WINDOW, [], [], 0, false, false)
  }

  lemma {:induction false} BalancedAfter(l: Link, actions: seq<Action>)
    requires Balanced(l) && Possible(l, actions)
    ensures Balanced(After(l, actions))
    decreases actions
  {
    if actions == [] {
    } else {
      BalanceKept(l, actions[0]);
      BalancedAfter(Next(l, actions[0]), actions[1..]);
    }
  }

  /**
   Credit conservation: in every reachable state the peer's window, its DATA under way and the credit
   under way back add up to 256 KiB while the stream is registered; the receive window is back at 8 MiB
   between frames, and no DATA frame under way can exceed it.
   */
  lemma CreditConserved(l: Link, actions: seq<Action>)
    requires Opening(l) && Possible(l, actions)
    ensures var m := After(l, actions);
            && m.peer + InFlight(m.toUs) + Sum(m.toPeer) + m.lost == INITIAL_WINDOW
            && (m.id in m.s.registered ==> m.lost == 0)
            && m.id in m.s.streams && m.s.streams[m.id].recvWindow == MAX_STREAM_WINDOW
            && forall i :: 0 <= i < |m.toUs| && m.toUs[i].PData? ==> m.toUs[i].n <= m.s.streams[m.id].recvWindow
  {
    BalancedAfter(l, actions);
    var m := After(l, actions);
    forall i | 0 <= i < |m.toUs| && m.toUs[i].PData?
      ensures m.toUs[i].n <= MAX_STREAM_WINDOW
    {
      InFlightAt(m.toUs, i);
    }
  }

  lemma {:induction false} InFlightAt(q: seq<PeerFrame>, i: nat)
    requires i < |q| && q[i].PData?
    ensures q[i].n <= InFlight(q)
  {
    if i == 0 {
    } else {
      InFlightAt(q[1..], i - 1);
    }
  }
}
