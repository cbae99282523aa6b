/**
 A socket's outgoing packets: sent at once while it is connected, queued while it is not, with
 listeners that may emit and close in the middle of a handler. Handlers do not interleave here.
 */
module SioSocket {

  /** What a listener may do. */
  datatype Action<Packet> = Emit(p: Packet) | Close(disconnect: Packet)

  /** The calls of a run. on_connected calls the listener of the client before it sends the queue. */
  datatype Event<Packet> =
    | Act(action: Action<Packet>)
    | OnOpen
    | OnConnected(listener: seq<Action<Packet>>)
    | OnDisconnect
    | OnClose

  /**
   The socket, the packets handed to the client in order, and those thrown away: with the queue, or
   because the client is gone.
   */
  datatype State<Packet> = State(
    client: bool,            // m_client is not null
    connected: bool,
    queue: seq<Packet>,
    sent: seq<Packet>,
    dropped: seq<Packet>)

  function Initial<Packet>(): State<Packet> { State(true, false, [], [], []) }

  // ---------------------------------------------------------------------------
  // What the handlers do, as functions of the state
  // ---------------------------------------------------------------------------

  /** The packet an action gives to send_packet; close() sends one only while connected. */
  function Submitted<Packet>(s: State<Packet>, a: Action<Packet>): seq<Packet> {
    match a case Emit(p) => [p] case Close(p) => if s.client && s.connected then [p] else []
  }

  function Did<Packet>(s: State<Packet>, a: Action<Packet>): State<Packet> {
    var ps := Submitted(s, a);
    if ps == [] then s
    else if !s.client then s.(dropped := s.dropped + ps)
    else if s.connected then s.(sent := s.sent + s.queue + ps, queue := [])
    else s.(queue := s.queue + ps)
  }

  function DidAll<Packet>(s: State<Packet>, actions: seq<Action<Packet>>): State<Packet>
    decreases |actions|
  {
    if actions == [] then s else DidAll(Did(s, actions[0]), actions[1..])
  }

  function Dropped<Packet>(s: State<Packet>): State<Packet> { s.(queue := [], dropped := s.dropped + s.queue) }

  function Flushed<Packet>(s: State<Packet>): State<Packet> { s.(queue := [], sent := s.sent + s.queue) }

  /** on_connected comes from a client that still knows the socket. */
  function Step<Packet>(s: State<Packet>, e: Event<Packet>): State<Packet> {
    match e
    case Act(a) => Did(s, a)
    case OnOpen => s
    case OnConnected(listener) =>
      if !s.client || s.connected then s else Flushed(DidAll(s.(connected := true), listener))
    case OnDisconnect => if s.client && s.connected then Dropped(s.(connected := false)) else s
    case OnClose => if s.client then Dropped(s.(client := false, connected := false)) else s
  }

  // ---------------------------------------------------------------------------
  // The object
  // ---------------------------------------------------------------------------

  class Socket<Packet(==)> {
    var client: bool
    var connected: bool
    var queue: seq<Packet>
    var sent: seq<Packet>
    ghost var dropped: seq<Packet>

    constructor ()
      ensures View() == Initial()
    {
      client, connected, queue, sent, dropped := true, false, [], [], [];
    }

    ghost function View(): State<Packet>
      reads this
    {
      State(client, connected, queue, sent, dropped)
    }

    /** m_client->send() */
    method ClientSend(p: Packet)
      modifies this`sent
      ensures sent == old(sent) + [p]
    {
      sent := sent + [p];
    }

    method SendPacket(p: Packet)
      modifies this`sent, this`queue, this`dropped
      ensures View() == Did(old(View()), Emit(p))
    {
      if !client {
        dropped := dropped + [p];
        return;
      }
      if connected {
        SendQueue();
        ClientSend(p);
      } else {
        queue := queue + [p];
      }
    }

    /** The loops of send_packet and on_connected: pops and sends until nothing is left. */
    method SendQueue()
      modifies this`sent, this`queue
      ensures queue == [] && sent == old(sent) + old(queue)
    {
      while queue != []
        invariant sent + queue == old(sent) + old(queue)
        decreases |queue|
      {
        var front := queue[0];
        queue := queue[1..];
        ClientSend(front);
      }
    }

    method DropQueue()
      modifies this`queue, this`dropped
      ensures View() == Dropped(old(View()))
    {
      while queue != []
        invariant dropped + queue == old(dropped) + old(queue)
        decreases |queue|
      {
        dropped := dropped + [queue[0]];
        queue := queue[1..];
      }
    }

    method Close(disconnect: Packet)
      modifies this`sent, this`queue, this`dropped
      ensures View() == Did(old(View()), Action.Close(disconnect))
    {
      if !client {
        return;
      }
      if connected {
        SendPacket(disconnect);
      }
    }

    /** Whatever the client's listener does when the socket opens. */
    method CallListener(listener: seq<Action<Packet>>)
      modifies this`sent, this`queue, this`dropped
      ensures View() == DidAll(old(View()), listener)
    {
      for i := 0 to |listener|
        invariant DidAll(View(), listener[i..]) == DidAll(old(View()), listener)
        invariant client == old(client) && connected == old(connected)
      {
        assert listener[i..][1..] == listener[i + 1..];
        match listener[i] {
          case Emit(p) => SendPacket(p);
          case Close(p) => Close(p);
        }
      }
    }

    method OnConnected(listener: seq<Action<Packet>>)
      requires client
      modifies this`connected, this`sent, this`queue, this`dropped
      ensures View() == Step(old(View()), Event.OnConnected(listener))
    {
      if !connected {
        connected := true;
        CallListener(listener);
        SendQueue();
      }
    }

    method OnDisconnect()
      modifies this`connected, this`queue, this`dropped
      ensures View() == Step(old(View()), Event.OnDisconnect)
    {
      if !client {
        return;
      }
      if connected {
        connected := false;
        DropQueue();
      }
    }

    method OnClose()
      modifies this`client, this`connected, this`queue, this`dropped
      ensures View() == Step(old(View()), Event.OnClose)
    {
      if !client {
        return;
      }
      client := false;
      connected := false;
      DropQueue();
    }
  }

  // ---------------------------------------------------------------------------
  // Whole runs
  // ---------------------------------------------------------------------------

  function Run<Packet>(es: seq<Event<Packet>>): State<Packet> {
    if es == [] then Initial() else Step(Run(es[..|es| - 1]), es[|es| - 1])
  }

  /** The packets a listener submits, one action after the other. */
  function SubmittedByAll<Packet>(s: State<Packet>, actions: seq<Action<Packet>>): seq<Packet>
    decreases |actions|
  {
    if actions == [] then [] else Submitted(s, actions[0]) + SubmittedByAll(Did(s, actions[0]), actions[1..])
  }

  function SubmittedBy<Packet>(s: State<Packet>, e: Event<Packet>): seq<Packet> {
    match e
    case Act(a) => Submitted(s, a)
    case OnConnected(listener) =>
      if !s.client || s.connected then [] else SubmittedByAll(s.(connected := true), listener)
    case _ => []
  }

  /** All packets given to send_packet in a run, in order. */
  function SubmittedIn<Packet>(es: seq<Event<Packet>>): seq<Packet> {
    if es == [] then []
    else SubmittedIn(es[..|es| - 1]) + SubmittedBy(Run(es[..|es| - 1]), es[|es| - 1])
  }

  /** Everything there is, in order. */
  function All<Packet>(s: State<Packet>): seq<Packet> { s.sent + s.queue + s.dropped }

  ghost predicate Inv<Packet>(s: State<Packet>) {
    && (s.connected ==> s.client && s.queue == [])
    && (s.client ==> s.dropped == [])
    && (!s.client ==> s.queue == [])
  }

  lemma DidAppends<Packet>(s: State<Packet>, a: Action<Packet>)
    requires if s.client then s.dropped == [] else s.queue == []
    ensures All(Did(s, a)) == All(s) + Submitted(s, a)
    ensures var t := Did(s, a); t.client == s.client && t.connected == s.connected
    ensures var t := Did(s, a); if s.client then t.dropped == [] else t.queue == []
  {
  }

  lemma {:induction false} DidAllAppends<Packet>(s: State<Packet>, actions: seq<Action<Packet>>)
    requires if s.client then s.dropped == [] else s.queue == []
    ensures All(DidAll(s, actions)) == All(s) + SubmittedByAll(s, actions)
    ensures var t := DidAll(s, actions);
      t.client == s.client && t.connected == s.connected && (s.client ==> t.dropped == [])
    decreases |actions|
  {
    hide All, Did, Submitted;
    if actions == [] {
      assert All(s) + [] == All(s);
    } else {
      DidAppends(s, actions[0]);
      DidAllAppends(Did(s, actions[0]), actions[1..]);
      InThree(All(s), Submitted(s, actions[0]), SubmittedByAll(Did(s, actions[0]), actions[1..]));
    }
  }

  lemma InThree<T>(a: seq<T>, b: seq<T>, c: seq<T>)
    ensures a + b + c == a + (b + c)
  {
  }

  lemma StepKeeps<Packet>(s: State<Packet>, e: Event<Packet>)
    requires Inv(s)
    ensures Inv(Step(s, e)) && All(Step(s, e)) == All(s) + SubmittedBy(s, e)
  {
    match e
    case Act(a) => DidAppends(s, a);
    case OnConnected(listener) =>
      if s.client && !s.connected {
        DidAllAppends(s.(connected := true), listener);
        hide DidAll, SubmittedByAll;
        assert All(Flushed(DidAll(s.(connected := true), listener))) == All(DidAll(s.(connected := true), listener));
      }
    case _ =>
  }

  /**
   In every run the packets sent, then the queue, then what was thrown away, are the packets
   submitted, in order and each once; a connected socket has an empty queue; and nothing is
   thrown away before on_close.
   */
  lemma {:induction false} NothingIsLost<Packet>(es: seq<Event<Packet>>)
    ensures Inv(Run(es))
    ensures All(Run(es)) == SubmittedIn(es)
  {
    hide Step, Inv, SubmittedBy, All;
    if es == [] {
      NothingYet<Packet>();
    } else {
      NothingIsLost(es[..|es| - 1]);
      StepKeeps(Run(es[..|es| - 1]), es[|es| - 1]);
    }
  }

  lemma NothingYet<Packet>()
    ensures Inv(Initial<Packet>()) && All(Initial<Packet>()) == []
  {
  }

  /** Until on_close, sent and queued packets are exactly the submitted ones. */
  lemma {:induction false} UntilClose<Packet>(es: seq<Event<Packet>>)
    requires forall i :: 0 <= i < |es| ==> !es[i].OnClose?
    ensures var s := Run(es); s.client && s.sent + s.queue == SubmittedIn(es) && (s.connected ==> s.queue == [])
  {
    NothingIsLost(es);
    StillOpen(es);
    var s := Run(es);
    assert s.sent + s.queue + [] == s.sent + s.queue;
  }

  lemma {:induction false} StillOpen<Packet>(es: seq<Event<Packet>>)
    requires forall i :: 0 <= i < |es| ==> !es[i].OnClose?
    ensures Run(es).client
  {
    if es != [] {
      var p, e := es[..|es| - 1], es[|es| - 1];
      StillOpen(p);
      NothingIsLost(p);
      if e.OnConnected? {
        DidAllAppends(Run(p).(connected := true), e.listener);
      }
      hide All, DidAll, SubmittedByAll, Run;
    }
  }

  /** After on_close the socket sends and queues nothing any more. */
  lemma {:induction false} SilentAfterClose<Packet>(es: seq<Event<Packet>>, later: seq<Event<Packet>>)
    requires !Run(es).client
    ensures var t := Run(es + later); !t.client && t.sent == Run(es).sent && t.queue == []
  {
    hide Step, Inv;
    NothingIsLost(es);
    if later == [] {
      assert es + later == es;
      ClosedIsEmpty(Run(es));
    } else {
      var n := |later| - 1;
      assert (es + later)[..|es| + n] == es + later[..n];
      SilentAfterClose(es, later[..n]);
      SilentStep(Run(es + later[..n]), later[n]);
    }
  }

  lemma ClosedIsEmpty<Packet>(s: State<Packet>)
    requires Inv(s) && !s.client
    ensures s.queue == []
  {
  }

  lemma SilentStep<Packet>(s: State<Packet>, e: Event<Packet>)
    requires !s.client
    ensures var t := Step(s, e); !t.client && t.sent == s.sent && t.queue == s.queue
  {
  }

  // ---------------------------------------------------------------------------
  // When it is connected, and where a packet goes
  // ---------------------------------------------------------------------------

  ghost predicate NoClose<Packet>(es: seq<Event<Packet>>) {
    forall k :: 0 <= k < |es| ==> !es[k].OnClose?
  }

  /** on_connected has come, and on_disconnect not since. */
  ghost predicate ConnectedSince<Packet>(es: seq<Event<Packet>>) {
    exists i :: 0 <= i < |es| && es[i].OnConnected? && forall k :: i < k < |es| ==> !es[k].OnDisconnect?
  }

  lemma SinceSnoc<Packet>(es: seq<Event<Packet>>)
    requires es != []
    ensures var p, e := es[..|es| - 1], es[|es| - 1];
      && (NoClose(es) <==> NoClose(p) && !e.OnClose?)
      && (ConnectedSince(es) <==> e.OnConnected? || (ConnectedSince(p) && !e.OnDisconnect?))
  {
    var p, e := es[..|es| - 1], es[|es| - 1];
    if ConnectedSince(p) && !e.OnDisconnect? {
      var i :| 0 <= i < |p| && p[i].OnConnected? && forall k :: i < k < |p| ==> !p[k].OnDisconnect?;
      assert es[i].OnConnected?;
    }
    if ConnectedSince(es) && !e.OnConnected? {
      var i :| 0 <= i < |es| && es[i].OnConnected? && forall k :: i < k < |es| ==> !es[k].OnDisconnect?;
      assert p[i].OnConnected?;
    }
    if e.OnConnected? {
      assert es[|es| - 1].OnConnected?;
    }
  }

  /** A socket has its client until on_close, and from on_connected is connected until on_disconnect or on_close. */
  lemma {:induction false} ConnectedIff<Packet>(es: seq<Event<Packet>>)
    ensures Run(es).client <==> NoClose(es)
    ensures Run(es).connected <==> ConnectedSince(es) && NoClose(es)
  {
    hide Step, Inv, NoClose, ConnectedSince;
    if es == [] {
      NeverConnected<Packet>();
    } else {
      ConnectedIff(es[..|es| - 1]);
      NothingIsLost(es[..|es| - 1]);
      ConnectedMoves(Run(es[..|es| - 1]), es[|es| - 1]);
      SinceSnoc(es);
    }
  }

  lemma NeverConnected<Packet>()
    ensures var none: seq<Event<Packet>> := []; NoClose(none) && !ConnectedSince(none)
  {
  }

  lemma ConnectedMoves<Packet>(s: State<Packet>, e: Event<Packet>)
    requires Inv(s)
    ensures Step(s, e).client <==> s.client && !e.OnClose?
    ensures Step(s, e).connected <==> s.client && !e.OnClose? && (e.OnConnected? || (s.connected && !e.OnDisconnect?))
  {
    match e
    case Act(a) => DidAppends(s, a);
    case OnConnected(listener) =>
      if s.client && !s.connected {
        DidAllAppends(s.(connected := true), listener);
      }
      hide DidAll, SubmittedByAll, All;
    case _ =>
  }

  /** A packet goes out at once from a connected socket, waits in another, and is lost without a client. */
  lemma EmittedGoes<Packet>(s: State<Packet>, p: Packet)
    requires Inv(s)
    ensures Step(s, Act(Emit(p))) ==
      if s.connected then s.(sent := s.sent + [p])
      else if s.client then s.(queue := s.queue + [p])
      else s.(dropped := s.dropped + [p])
  {
    assert s.sent + [] + [p] == s.sent + [p];
  }

  /** close() sends its packet from a connected socket, and does nothing in another. */
  lemma CloseSends<Packet>(s: State<Packet>, p: Packet)
    requires Inv(s)
    ensures Step(s, Act(Close(p))) == if s.connected then s.(sent := s.sent + [p]) else s
    ensures SubmittedBy(s, Act(Close(p))) == if s.connected then [p] else []
  {
    assert s.sent + [] + [p] == s.sent + [p];
  }

  /** on_connected of a silent listener sends what has waited; on_disconnect and on_close send nothing. */
  lemma HandlersSend<Packet>(s: State<Packet>)
    requires Inv(s)
    ensures Step(s, OnConnected([])) ==
      if s.client then s.(connected := true, queue := [], sent := s.sent + s.queue) else s
    ensures Step(s, OnDisconnect).sent == s.sent && Step(s, OnClose).sent == s.sent
    ensures Step(s, OnDisconnect).queue == s.queue && Step(s, OnClose).queue == []
  {
    assert s.sent + [] == s.sent;
  }
}
