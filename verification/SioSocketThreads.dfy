/**
 The same socket when several threads call it: every read or write of a field, and every section
 under the packet mutex, is a step of its own, and the threads' steps come in any order.
 */
module SioSocketThreads {
  import opened Text
  import SioSocket

  type Packet = nat
  type Action = SioSocket.Action<Packet>

  /** Where send_packet or close() is, with the packets it has in hand; Over is behind its end. */
  datatype Sender =
    | SendGuard(own: Packet)
    | SendCheck(own: Packet)
    | SendDrain(own: Packet)
    | SendFront(own: Packet, front: Packet)
    | SendOwn(own: Packet)
    | SendPush(own: Packet)
    | EndGuard(disconnect: Packet)
    | EndCheck(disconnect: Packet)
    | Over

  /** Where a call is. on_connected calls the client's listener, whose actions are part of that call. */
  datatype Pc =
    | Sending(send: Sender)
    | ConnectedGuard(listener: seq<Action>)
    | ConnectedCheck(listener: seq<Action>)
    | ConnectedSet(listener: seq<Action>)
    | Listening(send: Sender, rest: seq<Action>)
    | ConnectedDrain
    | ConnectedFront(front: Packet)
    | DisconnectGuard
    | DisconnectCheck
    | DisconnectClear
    | DisconnectDrop
    | CloseGuard
    | CloseNull
    | CloseClear
    | CloseDrop
    | Done

  /** The fields that the calls share, and what became of the packets. */
  datatype Shared = Shared(
    client: bool,
    connected: bool,
    queue: seq<Packet>,
    sent: seq<Packet>,
    dropped: seq<Packet>)

  datatype State = State(shared: Shared, calls: seq<Pc>)

  /** A new call, or one step of call number i. */
  datatype Event = Call(pc: Pc) | Run(i: nat)

  const INITIAL := State(Shared(true, false, [], [], []), [])

  /** Where calls begin. */
  predicate IsEntry(pc: Pc) {
    || (pc.Sending? && (pc.send.SendGuard? || pc.send.EndGuard?))
    || pc.ConnectedGuard?
    || pc == DisconnectGuard
    || pc == CloseGuard
  }

  /** Where an action of a listener begins. */
  function Begin(a: Action): Sender {
    match a case Emit(p) => SendGuard(p) case Close(p) => EndGuard(p)
  }

  /** The mutex is held while the queue is emptied. */
  function QueueDropped(s: Shared): Shared { s.(queue := [], dropped := s.dropped + s.queue) }

  function Popped(s: Shared): Shared
    requires s.queue != []
  {
    s.(queue := s.queue[1..])
  }

  /** One step of send_packet or close(). A call that needs m_client when it is gone goes no further. */
  function SendMove(s: Shared, x: Sender): (Shared, Sender) {
    match x
    case SendGuard(p) => if s.client then (s, SendCheck(p)) else (s.(dropped := s.dropped + [p]), Over)
    case SendCheck(p) => (s, if s.connected then SendDrain(p) else SendPush(p))
    case SendDrain(p) => if s.queue == [] then (s, SendOwn(p)) else (Popped(s), SendFront(p, s.queue[0]))
    case SendFront(p, front) => if s.client then (s.(sent := s.sent + [front]), SendDrain(p)) else (s, x)
    case SendOwn(p) => if s.client then (s.(sent := s.sent + [p]), Over) else (s, x)
    case SendPush(p) => (s.(queue := s.queue + [p]), Over)
    case EndGuard(p) => (s, if s.client then EndCheck(p) else Over)
    case EndCheck(p) => (s, if s.connected then SendGuard(p) else Over)
    case Over => (s, x)
  }

  /** One step of a call. */
  function Move(s: Shared, pc: Pc): (Shared, Pc) {
    match pc
    case Sending(x) => var (t, y) := SendMove(s, x); (t, if y == Over then Done else Sending(y))
    case ConnectedGuard(listener) => (s, if s.client then ConnectedCheck(listener) else Done)
    case ConnectedCheck(listener) => (s, if s.connected then Done else ConnectedSet(listener))
    case ConnectedSet(listener) => (s.(connected := true), Listening(Over, listener))
    case Listening(x, rest) =>
      if x != Over then var (t, y) := SendMove(s, x); (t, Listening(y, rest))
      else (s, if rest == [] then ConnectedDrain else Listening(Begin(rest[0]), rest[1..]))
    case ConnectedDrain => if s.queue == [] then (s, Done) else (Popped(s), ConnectedFront(s.queue[0]))
    case ConnectedFront(front) => if s.client then (s.(sent := s.sent + [front]), ConnectedDrain) else (s, pc)
    case DisconnectGuard => (s, if s.client then DisconnectCheck else Done)
    case DisconnectCheck => (s, if s.connected then DisconnectClear else Done)
    case DisconnectClear => (s.(connected := false), DisconnectDrop)
    case DisconnectDrop => (QueueDropped(s), Done)
    case CloseGuard => (s, if s.client then CloseNull else Done)
    case CloseNull => (s.(client := false), CloseClear)
    case CloseClear => (s.(connected := false), CloseDrop)
    case CloseDrop => (QueueDropped(s), Done)
    case Done => (s, pc)
  }

  function Step(s: State, e: Event): State {
    match e
    case Call(pc) => if IsEntry(pc) then s.(calls := s.calls + [pc]) else s
    case Run(i) =>
      if i < |s.calls| then
        var (shared, pc) := Move(s.shared, s.calls[i]);
        State(shared, s.calls[i := pc])
      else s
  }

  function After(s: State, es: seq<Event>): State {
    if es == [] then s else Step(After(s, es[..|es| - 1]), es[|es| - 1])
  }

  // ---------------------------------------------------------------------------
  // What is submitted
  // ---------------------------------------------------------------------------

  /** The packet that a step gives to send_packet. */
  function SenderGives(s: Shared, x: Sender): seq<Packet> {
    if x.EndCheck? && s.connected then [x.disconnect] else []
  }

  function Gives(s: Shared, pc: Pc): seq<Packet> {
    match pc
    case Sending(x) => SenderGives(s, x)
    case Listening(x, rest) =>
      if x != Over then SenderGives(s, x) else if rest != [] && rest[0].Emit? then [rest[0].p] else []
    case _ => []
  }

  function SubmittedBy(s: State, e: Event): seq<Packet> {
    match e
    case Call(pc) => if pc.Sending? && pc.send.SendGuard? then [pc.send.own] else []
    case Run(i) => if i < |s.calls| then Gives(s.shared, s.calls[i]) else []
  }

  /** The packets of all calls of send_packet, in order. */
  function SubmittedIn(es: seq<Event>): seq<Packet> {
    if es == [] then []
    else SubmittedIn(es[..|es| - 1]) + SubmittedBy(After(INITIAL, es[..|es| - 1]), es[|es| - 1])
  }

  // ---------------------------------------------------------------------------
  // Conservation
  // ---------------------------------------------------------------------------

  function One(p: Packet, x: Packet): nat { if p == x then 1 else 0 }

  /** How often packet x is in the hand of send_packet. */
  function InHand(y: Sender, x: Packet): nat {
    match y
    case SendFront(p, front) => One(p, x) + One(front, x)
    case EndGuard(_) => 0
    case EndCheck(_) => 0
    case Over => 0
    case _ => One(y.own, x)
  }

  /** How often packet x is in a call's hand. */
  function Hand(pc: Pc, x: Packet): nat {
    match pc
    case Sending(y) => InHand(y, x)
    case Listening(y, _) => InHand(y, x)
    case ConnectedFront(front) => One(front, x)
    case _ => 0
  }

  function Hands(calls: seq<Pc>, x: Packet): nat {
    if calls == [] then 0 else Hands(calls[..|calls| - 1], x) + Hand(calls[|calls| - 1], x)
  }

  /** How often x occurs in a list. */
  function Occurs(ps: seq<Packet>, x: Packet): nat {
    if ps == [] then 0 else Occurs(ps[..|ps| - 1], x) + One(ps[|ps| - 1], x)
  }

  /** How often x is in no call's hand. */
  function Stored(s: Shared, x: Packet): nat { Occurs(s.sent, x) + Occurs(s.queue, x) + Occurs(s.dropped, x) }

  lemma OccursOne(p: Packet, x: Packet)
    ensures Occurs([p], x) == One(p, x) && Occurs([], x) == 0
  {
    assert [p][..0] == [];
  }

  lemma OccursSnoc(ps: seq<Packet>, p: Packet, x: Packet)
    ensures Occurs(ps + [p], x) == Occurs(ps, x) + One(p, x)
  {
    assert (ps + [p])[..|ps|] == ps;
  }

  lemma {:induction false} OccursTogether(ps: seq<Packet>, qs: seq<Packet>, x: Packet)
    ensures Occurs(ps + qs, x) == Occurs(ps, x) + Occurs(qs, x)
  {
    if qs == [] {
      assert ps + qs == ps;
    } else {
      var n := |qs| - 1;
      assert ps + qs == ps + qs[..n] + [qs[n]];
      OccursSnoc(ps + qs[..n], qs[n], x);
      OccursTogether(ps, qs[..n], x);
    }
  }

  lemma OccursFirst(ps: seq<Packet>, x: Packet)
    requires ps != []
    ensures Occurs(ps, x) == One(ps[0], x) + Occurs(ps[1..], x)
  {
    OccursTogether([ps[0]], ps[1..], x);
    OccursOne(ps[0], x);
    assert [ps[0]] + ps[1..] == ps;
  }

  lemma {:induction false} HandsUpdate(calls: seq<Pc>, i: nat, pc: Pc, x: Packet)
    requires i < |calls|
    ensures Hands(calls[i := pc], x) + Hand(calls[i], x) == Hands(calls, x) + Hand(pc, x)
  {
    hide Hand;
    var n := |calls| - 1;
    if i == n {
      assert calls[i := pc][..n] == calls[..n];
    } else {
      assert calls[i := pc][..n] == calls[..n][i := pc];
      HandsUpdate(calls[..n], i, pc, x);
    }
  }

  lemma SendShifts(s: Shared, y: Sender, x: Packet)
    ensures Stored(SendMove(s, y).0, x) + InHand(SendMove(s, y).1, x) ==
      Stored(s, x) + InHand(y, x) + Occurs(SenderGives(s, y), x)
  {
    hide Occurs, One;
    OccursOne(0, x);
    match y
    case SendGuard(p) => OccursSnoc(s.dropped, p, x);
    case SendDrain(p) => if s.queue != [] { OccursFirst(s.queue, x); }
    case SendFront(_, front) => OccursSnoc(s.sent, front, x);
    case SendOwn(p) => OccursSnoc(s.sent, p, x);
    case SendPush(p) => OccursSnoc(s.queue, p, x);
    case EndCheck(p) => OccursOne(p, x);
    case _ =>
  }

  /** A step of a call moves a packet from one place to another. */
  lemma MoveShifts(s: Shared, pc: Pc, x: Packet)
    ensures Stored(Move(s, pc).0, x) + Hand(Move(s, pc).1, x) == Stored(s, x) + Hand(pc, x) + Occurs(Gives(s, pc), x)
  {
    hide Occurs, One, SendMove, SenderGives;
    OccursOne(0, x);
    match pc
    case Sending(y) => SendShifts(s, y, x);
    case Listening(y, rest) =>
      if y != Over {
        SendShifts(s, y, x);
      } else if rest != [] && rest[0].Emit? {
        OccursOne(rest[0].p, x);
      }
    case ConnectedDrain => if s.queue != [] { OccursFirst(s.queue, x); }
    case ConnectedFront(front) => OccursSnoc(s.sent, front, x);
    case DisconnectDrop => OccursTogether(s.dropped, s.queue, x);
    case CloseDrop => OccursTogether(s.dropped, s.queue, x);
    case _ =>
  }

  /** How often x is anywhere: sent, queued, dropped, or in a call's hand. */
  function Everywhere(s: State, x: Packet): nat { Stored(s.shared, x) + Hands(s.calls, x) }

  lemma StepConserves(s: State, e: Event, x: Packet)
    ensures Everywhere(Step(s, e), x) == Everywhere(s, x) + Occurs(SubmittedBy(s, e), x)
  {
    hide Stored, Move, Gives, Occurs;
    OccursOne(0, x);
    match e
    case Call(pc) =>
      if IsEntry(pc) {
        assert (s.calls + [pc])[..|s.calls|] == s.calls;
        if pc.Sending? && pc.send.SendGuard? {
          OccursOne(pc.send.own, x);
        }
      }
    case Run(i) =>
      if i < |s.calls| {
        MoveShifts(s.shared, s.calls[i], x);
        HandsUpdate(s.calls, i, Move(s.shared, s.calls[i]).1, x);
      }
  }

  /**
   In every interleaving, a packet is sent, queued, dropped and in a call's hand as often in all as
   it was submitted.
   */
  lemma {:induction false} Conserved(es: seq<Event>, x: Packet)
    ensures Everywhere(After(INITIAL, es), x) == Occurs(SubmittedIn(es), x)
  {
    hide Step, Everywhere, SubmittedBy, Occurs;
    if es == [] {
      NothingYet(x);
    } else {
      var p, e := es[..|es| - 1], es[|es| - 1];
      Conserved(p, x);
      StepConserves(After(INITIAL, p), e, x);
      OccursTogether(SubmittedIn(p), SubmittedBy(After(INITIAL, p), e), x);
    }
  }

  lemma NothingYet(x: Packet)
    ensures Everywhere(INITIAL, x) == 0 && Occurs([], x) == 0
  {
  }

  // ---------------------------------------------------------------------------
  // One call at a time
  // ---------------------------------------------------------------------------

  /** The packet that send_packet took from the queue, and the one it was given. */
  function FrontOf(x: Sender): seq<Packet> { if x.SendFront? then [x.front] else [] }

  function OwnOf(x: Sender): seq<Packet> { if x.EndGuard? || x.EndCheck? || x == Over then [] else [x.own] }

  function Front(pc: Pc): seq<Packet> {
    match pc
    case Sending(x) => FrontOf(x)
    case Listening(x, _) => FrontOf(x)
    case ConnectedFront(front) => [front]
    case _ => []
  }

  function Own(pc: Pc): seq<Packet> {
    match pc case Sending(x) => OwnOf(x) case Listening(x, _) => OwnOf(x) case _ => []
  }

  /** Everything there is, in the order in which it was submitted. */
  function Line(s: Shared, pc: Pc): seq<Packet> { Joined(s.sent, Front(pc), s.queue, s.dropped, Own(pc)) }

  function Joined(sent: seq<Packet>, front: seq<Packet>, queue: seq<Packet>, dropped: seq<Packet>,
      own: seq<Packet>): seq<Packet> {
    sent + front + queue + dropped + own
  }

  /** What holds between calls. */
  predicate Settled(s: Shared) {
    && (s.connected ==> s.client && s.queue == [])
    && (s.client ==> s.dropped == [])
    && (!s.client ==> s.queue == [])
  }

  /** What holds in the middle of send_packet or close(), on its own or within a listener. */
  predicate SenderInv(s: Shared, x: Sender) {
    match x
    case SendCheck(_) => s.client
    case SendDrain(_) => s.client && s.connected
    case SendFront(_, _) => s.client && s.connected
    case SendOwn(_) => s.client && s.connected && s.queue == []
    case SendPush(_) => s.client && !s.connected
    case EndCheck(_) => s.client
    case _ => true
  }

  /** What holds in the middle of a call that no other call interrupts. */
  predicate CallInv(s: Shared, pc: Pc) {
    match pc
    case Sending(x) => Settled(s) && SenderInv(s, x)
    case ConnectedCheck(_) => Settled(s) && s.client
    case ConnectedSet(_) => Settled(s) && s.client && !s.connected
    case Listening(x, _) => s.client && s.connected && s.dropped == [] && SenderInv(s, x)
    case ConnectedDrain => s.client && s.connected && s.dropped == []
    case ConnectedFront(_) => s.client && s.connected && s.dropped == []
    case DisconnectCheck => Settled(s) && s.client
    case DisconnectClear => Settled(s) && s.client && s.connected
    case DisconnectDrop => Settled(s) && s.client && s.queue == []
    case CloseNull => Settled(s) && s.client
    case CloseClear => !s.client && s.dropped == []
    case CloseDrop => !s.client && !s.connected && s.dropped == []
    case _ => Settled(s)
  }

  function SendLine(s: Shared, x: Sender): seq<Packet> { Joined(s.sent, FrontOf(x), s.queue, s.dropped, OwnOf(x)) }

  /** The line is kept when send_packet finds the client gone. */
  lemma SenderGone(s: Shared, x: Sender)
    requires !s.client && !s.connected && s.queue == [] && SenderInv(s, x)
    ensures var (t, y) := SendMove(s, x);
      && t == s.(dropped := t.dropped) && SenderInv(t, y)
      && SendLine(t, y) == SendLine(s, x) + SenderGives(s, x)
  {
    if x.SendGuard? {
      assert s.sent + [] + [] + s.dropped + [x.own] == s.sent + [] + [] + (s.dropped + [x.own]) + [];
    } else {
      assert SendLine(s, x) + [] == SendLine(s, x);
    }
  }

  /** Moving a packet along, nothing being dropped. */
  lemma SenderOpen(s: Shared, x: Sender)
    requires s.client && s.dropped == [] && SenderInv(s, x)
    ensures var (t, y) := SendMove(s, x);
      && t == s.(queue := t.queue, sent := t.sent) && SenderInv(t, y)
      && (s.connected && s.queue == [] ==> t.queue == [])
      && SendLine(t, y) == SendLine(s, x) + SenderGives(s, x)
  {
    match x
    case SendDrain(p) => if s.queue != [] { TakesFront(s.sent, s.queue, p); }
    case SendFront(p, front) => PassesOn(s.sent, front, s.queue, p);
    case SendPush(p) => Pushes(s.sent, s.queue, p);
    case _ => WithNothing(s.sent, s.queue, OwnOf(x));
  }

  lemma TakesFront(sent: seq<Packet>, queue: seq<Packet>, p: Packet)
    requires queue != []
    ensures sent + [queue[0]] + queue[1..] + [] + [p] == sent + [] + queue + [] + [p]
  {
    assert [queue[0]] + queue[1..] == queue;
  }

  lemma PassesOn(sent: seq<Packet>, front: Packet, queue: seq<Packet>, p: Packet)
    ensures sent + [front] + [] + queue + [] + [p] == sent + [front] + queue + [] + [p]
  {
  }

  lemma Pushes(sent: seq<Packet>, queue: seq<Packet>, p: Packet)
    ensures sent + [] + (queue + [p]) + [] + [] == sent + [] + queue + [] + [p]
  {
  }

  lemma WithNothing(a: seq<Packet>, b: seq<Packet>, c: seq<Packet>)
    ensures a + [] + b + [] + c == a + b + c
    ensures a + b + [] == a + b
  {
  }

  lemma SendInTurn(s: Shared, pc: Pc)
    requires CallInv(s, pc) && (pc.Sending? || (pc.Listening? && pc.send != Over))
    ensures var (t, next) := Move(s, pc); CallInv(t, next) && Line(t, next) == Line(s, pc) + Gives(s, pc)
  {
    hide SendMove, SenderInv, SenderGives, FrontOf, OwnOf;
    OverIsOver();
    if s.client {
      SenderOpen(s, pc.send);
    } else {
      SenderGone(s, pc.send);
    }
  }

  lemma OverIsOver()
    ensures FrontOf(Over) == [] && OwnOf(Over) == []
    ensures forall s :: SenderInv(s, Over)
  {
  }

  lemma ConnectedInTurn(s: Shared, pc: Pc)
    requires CallInv(s, pc)
    requires pc.ConnectedSet? || (pc.Listening? && pc.send == Over) || pc.ConnectedDrain? || pc.ConnectedFront?
    ensures var (t, next) := Move(s, pc); CallInv(t, next) && Line(t, next) == Line(s, pc) + Gives(s, pc)
  {
    hide Joined, SendMove, SenderGives;
    match pc
    case ConnectedSet(_) => GivesNothing(s.sent, [], s.queue, s.dropped, []);
    case Listening(_, rest) =>
      GivesNothing(s.sent, [], s.queue, s.dropped, []);
      if rest != [] && rest[0].Emit? { GivesOne(s.sent, [], s.queue, s.dropped, rest[0].p); }
    case ConnectedDrain =>
      GivesNothing(s.sent, [], s.queue, s.dropped, []);
      if s.queue != [] { DrainsFront(s.sent, s.queue); }
    case ConnectedFront(front) => FrontSent(s.sent, front, s.queue);
  }

  lemma DroppingInTurn(s: Shared, pc: Pc)
    requires CallInv(s, pc) && !pc.Sending? && !pc.ConnectedSet? && !pc.Listening? && !pc.ConnectedDrain? &&
      !pc.ConnectedFront?
    ensures var (t, next) := Move(s, pc); CallInv(t, next) && Line(t, next) == Line(s, pc) + Gives(s, pc)
  {
    hide Joined, SendMove, SenderGives;
    GivesNothing(s.sent, [], s.queue, s.dropped, []);
    DropsLast(s.sent, s.queue, s.dropped);
  }

  lemma GivesNothing(sent: seq<Packet>, front: seq<Packet>, queue: seq<Packet>, dropped: seq<Packet>, own: seq<Packet>)
    ensures Joined(sent, front, queue, dropped, own) + [] == Joined(sent, front, queue, dropped, own)
  {
  }

  lemma GivesOne(sent: seq<Packet>, front: seq<Packet>, queue: seq<Packet>, dropped: seq<Packet>, p: Packet)
    ensures Joined(sent, front, queue, dropped, []) + [p] == Joined(sent, front, queue, dropped, [p])
  {
  }

  lemma DrainsFront(sent: seq<Packet>, queue: seq<Packet>)
    requires queue != []
    ensures Joined(sent, [queue[0]], queue[1..], [], []) == Joined(sent, [], queue, [], [])
  {
    assert [queue[0]] + queue[1..] == queue;
  }

  lemma FrontSent(sent: seq<Packet>, front: Packet, queue: seq<Packet>)
    ensures Joined(sent + [front], [], queue, [], []) == Joined(sent, [front], queue, [], []) + []
  {
  }

  lemma DropsLast(sent: seq<Packet>, queue: seq<Packet>, dropped: seq<Packet>)
    ensures dropped == [] ==> Joined(sent, [], [], dropped + queue, []) == Joined(sent, [], queue, dropped, [])
  {
  }

  /** The call under way is the last one; Done when there is none. */
  function Current(calls: seq<Pc>): Pc { if calls == [] then Done else calls[|calls| - 1] }

  ghost predicate AllDone(calls: seq<Pc>) { forall i :: 0 <= i < |calls| ==> calls[i] == Done }

  /** A call begins only when all earlier calls have come to their end. */
  ghost predicate OneAtATime(es: seq<Event>) {
    forall k :: 0 <= k < |es| && es[k].Call? ==> AllDone(After(INITIAL, es[..k]).calls)
  }

  ghost predicate InTurn(s: State) {
    && (forall i :: 0 <= i < |s.calls| - 1 ==> s.calls[i] == Done)
    && CallInv(s.shared, Current(s.calls))
  }

  lemma MoveInTurn(s: Shared, pc: Pc)
    requires CallInv(s, pc)
    ensures var (t, next) := Move(s, pc); CallInv(t, next) && Line(t, next) == Line(s, pc) + Gives(s, pc)
  {
    hide CallInv, Move, Line, Gives;
    if pc.Sending? || (pc.Listening? && pc.send != Over) {
      SendInTurn(s, pc);
    } else if pc.ConnectedSet? || pc.Listening? || pc.ConnectedDrain? || pc.ConnectedFront? {
      ConnectedInTurn(s, pc);
    } else {
      DroppingInTurn(s, pc);
    }
  }

  lemma StepInTurn(s: State, e: Event)
    requires InTurn(s) && (e.Call? ==> AllDone(s.calls))
    ensures var t := Step(s, e);
      InTurn(t) && Line(t.shared, Current(t.calls)) == Line(s.shared, Current(s.calls)) + SubmittedBy(s, e)
  {
    hide Move, Gives;
    match e
    case Call(pc) =>
      CallInTurn(s, pc);
    case Run(i) =>
      if i == |s.calls| - 1 {
        MoveInTurn(s.shared, s.calls[i]);
      } else if i < |s.calls| {
        DoneStays(s.shared);
        assert s.calls[i := Done] == s.calls;
        assert Line(s.shared, Current(s.calls)) + [] == Line(s.shared, Current(s.calls));
      }
  }

  lemma DoneStays(s: Shared)
    ensures Move(s, Done) == (s, Done) && Gives(s, Done) == []
  {
  }

  lemma CallInTurn(s: State, pc: Pc)
    requires InTurn(s) && AllDone(s.calls)
    ensures var t := Step(s, Call(pc));
      InTurn(t) && Line(t.shared, Current(t.calls)) == Line(s.shared, Current(s.calls)) + SubmittedBy(s, Call(pc))
  {
    assert Current(s.calls) == Done;
    hide Move;
    if IsEntry(pc) {
      assert Line(s.shared, Done) == s.shared.sent + s.shared.queue + s.shared.dropped;
    }
  }

  /**
   When calls come one at a time, disconnects and on_close among them, then what was sent, the
   packet taken from the queue, the queue, what was dropped, and the packet just given, are the
   submitted packets in order.
   */
  lemma {:induction false} OrderKept(es: seq<Event>)
    requires OneAtATime(es)
    ensures var s := After(INITIAL, es); InTurn(s) && Line(s.shared, Current(s.calls)) == SubmittedIn(es)
  {
    hide Step, Line, InTurn, SubmittedBy;
    if es == [] {
      NothingInLine();
    } else {
      var p, e := es[..|es| - 1], es[|es| - 1];
      forall k | 0 <= k < |p| && p[k].Call? ensures AllDone(After(INITIAL, p[..k]).calls) {
        assert p[..k] == es[..k] && p[k] == es[k];
      }
      assert e.Call? ==> AllDone(After(INITIAL, p).calls) by { assert p == es[..|es| - 1]; }
      OrderKept(p);
      StepInTurn(After(INITIAL, p), e);
    }
  }

  lemma NothingInLine()
    ensures InTurn(INITIAL) && Line(INITIAL.shared, Done) == []
  {
  }

  // ---------------------------------------------------------------------------
  // One sender at a time
  // ---------------------------------------------------------------------------

  /** The call sends or queues packets: send_packet, close(), or on_connected. */
  predicate IsSender(pc: Pc) {
    pc.Sending? || pc.ConnectedGuard? || pc.ConnectedCheck? || pc.ConnectedSet? || pc.Listening?
    || pc.ConnectedDrain? || pc.ConnectedFront?
  }

  ghost predicate NoSender(calls: seq<Pc>) { forall i :: 0 <= i < |calls| ==> !IsSender(calls[i]) }

  /** Such a call begins only when none is under way; on_disconnect and on_close come when they like. */
  ghost predicate SendersInTurn(es: seq<Event>) {
    forall k :: 0 <= k < |es| && es[k].Call? && IsSender(es[k].pc) ==> NoSender(After(INITIAL, es[..k]).calls)
  }

  /** a is b with some packets left out. */
  predicate Among(a: seq<Packet>, b: seq<Packet>) {
    a == [] ||
    (b != [] &&
      (Among(a, b[..|b| - 1]) || (a[|a| - 1] == b[|b| - 1] && Among(a[..|a| - 1], b[..|b| - 1]))))
  }

  lemma {:induction false} AmongAll(a: seq<Packet>)
    ensures Among(a, a)
  {
    if a != [] {
      AmongAll(a[..|a| - 1]);
    }
  }

  lemma AmongMore(a: seq<Packet>, b: seq<Packet>, x: Packet)
    requires Among(a, b)
    ensures Among(a, b + [x]) && Among(a + [x], b + [x])
  {
    assert (b + [x])[..|b|] == b && (a + [x])[..|a|] == a;
  }

  lemma {:induction false} AmongSteps(a: seq<Packet>, b: seq<Packet>, c: seq<Packet>)
    requires Among(a, b) && Among(b, c)
    ensures Among(a, c)
    decreases |c|
  {
    if a != [] && c != [] {
      var c' := c[..|c| - 1];
      if Among(b, c') {
        AmongSteps(a, b, c');
      } else {
        var b' := b[..|b| - 1];
        if Among(a, b') {
          AmongSteps(a, b', c');
        } else {
          AmongSteps(a[..|a| - 1], b', c');
        }
      }
    }
  }

  lemma {:induction false} AmongWithEnd(a: seq<Packet>, b: seq<Packet>, end: seq<Packet>)
    requires Among(a, b)
    ensures Among(a, b + end) && Among(a + end, b + end)
  {
    if end == [] {
      assert a + end == a && b + end == b;
    } else {
      var n := |end| - 1;
      AmongWithEnd(a, b, end[..n]);
      AmongMore(a, b + end[..n], end[n]);
      AmongMore(a + end[..n], b + end[..n], end[n]);
      assert b + end[..n] + [end[n]] == b + end && a + end[..n] + [end[n]] == a + end;
    }
  }

  /** Leaving out the middle. */
  lemma WithoutMiddle(a: seq<Packet>, middle: seq<Packet>, end: seq<Packet>)
    ensures Among(a + end, a + middle + end)
  {
    AmongAll(a);
    AmongWithEnd(a, a, middle);
    AmongWithEnd(a, a + middle, end);
  }

  function Fronts(calls: seq<Pc>): seq<Packet> {
    if calls == [] then [] else Fronts(calls[..|calls| - 1]) + Front(calls[|calls| - 1])
  }

  function Owns(calls: seq<Pc>): seq<Packet> {
    if calls == [] then [] else Owns(calls[..|calls| - 1]) + Own(calls[|calls| - 1])
  }

  /** What was sent, taken from the queue, is in it, and was just given, in this order. */
  function Trail(sent: seq<Packet>, front: seq<Packet>, queue: seq<Packet>, own: seq<Packet>): seq<Packet> {
    sent + front + queue + own
  }

  function TrailOf(s: State): seq<Packet> { Trail(s.shared.sent, Fronts(s.calls), s.shared.queue, Owns(s.calls)) }

  /** One sender at most, which has seen the queue empty before it sends its own packet. */
  ghost predicate Orderly(s: State) { OneSender(s.calls) && OwnSeesEmpty(s.calls, s.shared.queue) }

  ghost predicate OneSender(calls: seq<Pc>) {
    forall i, j :: 0 <= i < j < |calls| ==> !IsSender(calls[i]) || !IsSender(calls[j])
  }

  ghost predicate OwnSeesEmpty(calls: seq<Pc>, queue: seq<Packet>) {
    forall i :: 0 <= i < |calls| && IsOwn(calls[i]) ==> queue == []
  }

  predicate IsOwn(pc: Pc) { match pc case Sending(x) => x.SendOwn? case Listening(x, _) => x.SendOwn? case _ => false }

  lemma {:induction false} OnlyOne(calls: seq<Pc>, i: nat)
    requires i < |calls| && forall j :: 0 <= j < |calls| && j != i ==> !IsSender(calls[j])
    ensures Fronts(calls) == Front(calls[i]) && Owns(calls) == Own(calls[i])
  {
    hide IsSender;
    var n := |calls| - 1;
    if i == n {
      NoneHolds(calls[..n]);
      assert calls[..n] + [calls[n]] == calls;
    } else {
      OnlyOne(calls[..n], i);
      HoldsNothing(calls[n]);
    }
  }

  lemma {:induction false} NoneHolds(calls: seq<Pc>)
    requires NoSender(calls)
    ensures Fronts(calls) == [] && Owns(calls) == []
  {
    if calls != [] {
      HoldsNothing(calls[|calls| - 1]);
      hide IsSender;
      NoneHolds(calls[..|calls| - 1]);
    }
  }

  lemma HoldsNothing(pc: Pc)
    requires !IsSender(pc)
    ensures Front(pc) == [] && Own(pc) == []
  {
  }

  /** One step of the one sender keeps the trail, but for a packet that finds the client gone. */
  lemma SenderTrail(s: Shared, x: Sender)
    requires x.SendOwn? ==> s.queue == []
    ensures var (t, y) := SendMove(s, x);
      && (y.SendOwn? ==> t.queue == [])
      && Among(Trail(t.sent, FrontOf(y), t.queue, OwnOf(y)), Trail(s.sent, FrontOf(x), s.queue, OwnOf(x)) +
        SenderGives(s, x))
  {
    var (t, y) := SendMove(s, x);
    var before := Trail(s.sent, FrontOf(x), s.queue, OwnOf(x)) + SenderGives(s, x);
    var after := Trail(t.sent, FrontOf(y), t.queue, OwnOf(y));
    AmongAll(after);
    match x
    case SendGuard(p) =>
      if !s.client {
        WithoutMiddle(s.sent + [] + s.queue, [p], []);
        assert s.sent + [] + s.queue + [p] + [] == before && s.sent + [] + s.queue + [] == after;
      } else {
        assert before == after;
      }
    case SendDrain(p) => if s.queue != [] { TrailPops(s.sent, s.queue, [p]); } assert before == after;
    case SendFront(p, front) => assert s.client ==> before == after; assert !s.client ==> before == after;
    case SendOwn(p) => assert before == after;
    case SendPush(p) => TrailPushes(s.sent, s.queue, p); assert before == after;
    case _ => assert before == after;
  }

  lemma TrailPops(sent: seq<Packet>, queue: seq<Packet>, own: seq<Packet>)
    requires queue != []
    ensures Trail(sent, [queue[0]], queue[1..], own) == Trail(sent, [], queue, own)
  {
    assert [queue[0]] + queue[1..] == queue;
  }

  lemma TrailPushes(sent: seq<Packet>, queue: seq<Packet>, p: Packet)
    ensures Trail(sent, [], queue + [p], []) == Trail(sent, [], queue, [p])
  {
  }

  /** A step of any call that sends. */
  lemma MoveTrail(s: Shared, pc: Pc)
    requires IsSender(pc) && (IsOwn(pc) ==> s.queue == [])
    ensures var (t, next) := Move(s, pc);
      && (IsOwn(next) ==> t.queue == [])
      && Among(Trail(t.sent, Front(next), t.queue, Own(next)), Trail(s.sent, Front(pc), s.queue, Own(pc)) +
        Gives(s, pc))
  {
    hide SendMove, Trail, SenderGives;
    if pc.Sending? || (pc.Listening? && pc.send != Over) {
      SenderTrail(s, pc.send);
      hide Among;
    } else {
      var (t, next) := Move(s, pc);
      var after := Trail(t.sent, Front(next), t.queue, Own(next));
      AmongAll(after);
      TrailGives(s.sent, Front(pc), s.queue, Gives(s, pc));
      if pc == ConnectedDrain && s.queue != [] {
        TrailPops(s.sent, s.queue, []);
      } else if pc.ConnectedFront? {
        TrailSends(s.sent, pc.front, s.queue);
      }
      hide Among;
    }
  }

  lemma TrailGives(sent: seq<Packet>, front: seq<Packet>, queue: seq<Packet>, given: seq<Packet>)
    ensures Trail(sent, front, queue, []) + given == Trail(sent, front, queue, given)
  {
  }

  lemma TrailSends(sent: seq<Packet>, front: Packet, queue: seq<Packet>)
    ensures Trail(sent + [front], [], queue, []) == Trail(sent, [front], queue, [])
  {
  }

  /** A step of any other call leaves out the queue at most. */
  lemma OtherTrail(s: Shared, pc: Pc)
    requires !IsSender(pc)
    ensures var (t, next) := Move(s, pc);
      !IsSender(next) && t.sent == s.sent && (t.queue == s.queue || t.queue == []) && Gives(s, pc) == []
  {
  }

  lemma {:induction false} SameHands(calls: seq<Pc>, i: nat, pc: Pc)
    requires i < |calls| && Front(pc) == Front(calls[i]) && Own(pc) == Own(calls[i])
    ensures Fronts(calls[i := pc]) == Fronts(calls) && Owns(calls[i := pc]) == Owns(calls)
  {
    hide Front, Own;
    var n := |calls| - 1;
    if i == n {
      assert calls[i := pc][..n] == calls[..n];
    } else {
      assert calls[i := pc][..n] == calls[..n][i := pc];
      SameHands(calls[..n], i, pc);
    }
  }

  lemma QueueLeftOut(sent: seq<Packet>, front: seq<Packet>, queue: seq<Packet>, own: seq<Packet>)
    ensures Among(Trail(sent, front, [], own), Trail(sent, front, queue, own))
    ensures Among(Trail(sent, front, queue, own), Trail(sent, front, queue, own))
  {
    WithoutMiddle(sent + front, queue, own);
    AmongAll(sent + front + queue + own);
    assert sent + front + [] + own == sent + front + own;
  }

  lemma OthersAreNoSenders(calls: seq<Pc>, i: nat, pc: Pc)
    requires OneSender(calls) && i < |calls| && IsSender(calls[i])
    ensures forall j :: 0 <= j < |calls| && j != i ==> !IsSender(calls[j]) && calls[i := pc][j] == calls[j]
    ensures OneSender(calls[i := pc])
  {
    hide IsSender;
    forall j | 0 <= j < |calls| && j != i ensures !IsSender(calls[j]) {
      var first, second := if i < j then i else j, if i < j then j else i;
      assert !IsSender(calls[first]) || !IsSender(calls[second]);
    }
  }

  lemma SenderOrderly(s: State, i: nat)
    requires Orderly(s) && i < |s.calls| && IsSender(s.calls[i])
    ensures var t := Step(s, Run(i)); Orderly(t) && Among(TrailOf(t), TrailOf(s) + Gives(s.shared, s.calls[i]))
  {
    var (shared, pc) := Move(s.shared, s.calls[i]);
    MoveTrail(s.shared, s.calls[i]);
    hide Move, IsSender, IsOwn, Among, Trail, Front, Own, Gives, Fronts, Owns;
    OthersAreNoSenders(s.calls, i, pc);
    OnlyOne(s.calls, i);
    OnlyOne(s.calls[i := pc], i);
    OwnIsSender();
    hide OneSender;
  }

  lemma OwnIsSender()
    ensures forall pc :: IsOwn(pc) ==> IsSender(pc)
  {
  }

  lemma OtherOrderly(s: State, i: nat)
    requires Orderly(s) && i < |s.calls| && !IsSender(s.calls[i])
    ensures var t := Step(s, Run(i)); Orderly(t) && Among(TrailOf(t), TrailOf(s)) && Gives(s.shared, s.calls[i]) == []
  {
    var (shared, pc) := Move(s.shared, s.calls[i]);
    OtherTrail(s.shared, s.calls[i]);
    HoldsNothing(pc);
    HoldsNothing(s.calls[i]);
    hide Move, IsSender, IsOwn, Among, Trail, Front, Own, Gives, Fronts, Owns;
    SameHands(s.calls, i, pc);
    QueueLeftOut(s.shared.sent, Fronts(s.calls), s.shared.queue, Owns(s.calls));
    OwnIsSender();
    OtherKeepsOne(s.calls, i, pc, s.shared.queue, shared.queue);
    hide OneSender, OwnSeesEmpty;
  }

  lemma OtherKeepsOne(calls: seq<Pc>, i: nat, pc: Pc, queue: seq<Packet>, rest: seq<Packet>)
    requires OneSender(calls) && OwnSeesEmpty(calls, queue) && i < |calls|
    requires !IsSender(pc) && !IsOwn(pc) && (rest == queue || rest == [])
    ensures OneSender(calls[i := pc]) && OwnSeesEmpty(calls[i := pc], rest)
  {
    hide IsSender, IsOwn;
  }

  lemma CallOrderly(s: State, pc: Pc)
    requires Orderly(s) && (IsSender(pc) ==> NoSender(s.calls))
    ensures var t := Step(s, Call(pc)); Orderly(t) && Among(TrailOf(t), TrailOf(s) + SubmittedBy(s, Call(pc)))
  {
    if IsEntry(pc) {
      EntryTrail(s, pc);
      hide TrailOf, SubmittedBy, IsSender, IsOwn, Move, Among;
      AmongAll(TrailOf(Step(s, Call(pc))));
      OneMoreCall(s.calls, pc, s.shared.queue);
      hide OneSender, OwnSeesEmpty;
    } else {
      assert SubmittedBy(s, Call(pc)) == [];
      hide TrailOf, SubmittedBy, IsSender, IsOwn, Move, Among;
      AmongAll(TrailOf(s));
      assert TrailOf(s) + [] == TrailOf(s);
    }
  }

  lemma OneMoreCall(calls: seq<Pc>, pc: Pc, queue: seq<Packet>)
    requires OneSender(calls) && OwnSeesEmpty(calls, queue) && (IsSender(pc) ==> NoSender(calls)) && !IsOwn(pc)
    ensures OneSender(calls + [pc]) && OwnSeesEmpty(calls + [pc], queue)
  {
    hide IsSender, IsOwn;
  }

  lemma EntryTrail(s: State, pc: Pc)
    requires IsEntry(pc)
    ensures TrailOf(Step(s, Call(pc))) == TrailOf(s) + SubmittedBy(s, Call(pc)) && !IsOwn(pc)
  {
    var calls := s.calls + [pc];
    assert calls[..|s.calls|] == s.calls;
    assert Front(pc) == [] && Own(pc) == SubmittedBy(s, Call(pc));
    assert Fronts(calls) == Fronts(s.calls) + [] == Fronts(s.calls) && Owns(calls) == Owns(s.calls) + Own(pc);
    TrailGoesOn(s.shared.sent, Fronts(s.calls), s.shared.queue, Owns(s.calls), Own(pc));
    hide Fronts, Owns, Trail;
  }

  lemma TrailGoesOn(sent: seq<Packet>, front: seq<Packet>, queue: seq<Packet>, own: seq<Packet>, given: seq<Packet>)
    ensures Trail(sent, front, queue, own + given) == Trail(sent, front, queue, own) + given
  {
  }

  lemma StepOrderly(s: State, e: Event)
    requires Orderly(s) && (e.Call? && IsSender(e.pc) ==> NoSender(s.calls))
    ensures var t := Step(s, e); Orderly(t) && Among(TrailOf(t), TrailOf(s) + SubmittedBy(s, e))
  {
    hide Among, Orderly, Move;
    match e
    case Call(pc) => CallOrderly(s, pc);
    case Run(i) =>
      if i < |s.calls| {
        if IsSender(s.calls[i]) { SenderOrderly(s, i); } else { OtherOrderly(s, i); }
        assert TrailOf(s) + [] == TrailOf(s);
      } else {
        AmongAll(TrailOf(s));
        assert TrailOf(s) + [] == TrailOf(s);
      }
  }

  /**
   With one sender at a time, on_disconnect and on_close overlapping as they like, what was sent,
   taken from the queue, is in it, and was just given, is in the order in which it was submitted.
   */
  lemma {:induction false} SendersKeepOrder(es: seq<Event>)
    requires SendersInTurn(es)
    ensures Orderly(After(INITIAL, es)) && Among(TrailOf(After(INITIAL, es)), SubmittedIn(es))
  {
    hide Step, Orderly, TrailOf, SubmittedBy, Among, NoSender, IsSender;
    if es == [] {
      NoTrailYet();
    } else {
      var p, e := es[..|es| - 1], es[|es| - 1];
      var s := After(INITIAL, p);
      SendersPrefix(es);
      SendersKeepOrder(p);
      StepOrderly(s, e);
      AmongWithEnd(TrailOf(s), SubmittedIn(p), SubmittedBy(s, e));
      AmongSteps(TrailOf(Step(s, e)), TrailOf(s) + SubmittedBy(s, e), SubmittedIn(es));
    }
  }

  lemma NoTrailYet()
    ensures Orderly(INITIAL) && Among(TrailOf(INITIAL), [])
  {
  }

  lemma SendersPrefix(es: seq<Event>)
    requires es != [] && SendersInTurn(es)
    ensures var n := |es| - 1;
      SendersInTurn(es[..n]) && (es[n].Call? && IsSender(es[n].pc) ==> NoSender(After(INITIAL, es[..n]).calls))
  {
    hide After, NoSender, IsSender;
    var p := es[..|es| - 1];
    assert forall k :: 0 <= k < |p| ==> p[..k] == es[..k] && p[k] == es[k];
  }

  // ---------------------------------------------------------------------------
  // What is dropped
  // ---------------------------------------------------------------------------

  /** on_disconnect takes the mutex and finds packets in the queue. */
  predicate Drops(s: State, e: Event) {
    e.Run? && e.i < |s.calls| && s.calls[e.i] == DisconnectDrop && s.shared.queue != []
  }

  predicate IsClosing(pc: Pc) { pc == CloseGuard || pc == CloseNull || pc == CloseClear || pc == CloseDrop }

  ghost predicate NeverCloses(es: seq<Event>) {
    forall k :: 0 <= k < |es| && es[k].Call? ==> es[k].pc != CloseGuard
  }

  ghost predicate Opened(s: State) { s.shared.client && forall i :: 0 <= i < |s.calls| ==> !IsClosing(s.calls[i]) }

  lemma MoveDrops(s: Shared, pc: Pc)
    requires s.client && !IsClosing(pc)
    ensures var (t, next) := Move(s, pc);
      t.client && !IsClosing(next) && t.dropped == s.dropped + if pc == DisconnectDrop then s.queue else []
  {
  }

  lemma StepDrops(s: State, e: Event)
    requires Opened(s) && (e.Call? ==> e.pc != CloseGuard)
    ensures var t := Step(s, e);
      && Opened(t)
      && (t.shared.dropped == [] <==> s.shared.dropped == [] && !Drops(s, e))
  {
    hide Move;
    if e.Run? && e.i < |s.calls| {
      MoveDrops(s.shared, s.calls[e.i]);
    }
  }

  /** Every on_disconnect finds the queue empty by the time it has the mutex. */
  ghost predicate NeverDrops(es: seq<Event>) {
    forall k :: 0 <= k < |es| ==> !Drops(After(INITIAL, es[..k]), es[k])
  }

  lemma NeverDropsSnoc(es: seq<Event>)
    requires es != []
    ensures var n := |es| - 1; NeverDrops(es) <==> NeverDrops(es[..n]) && !Drops(After(INITIAL, es[..n]), es[n])
  {
    hide After, Drops;
    var p := es[..|es| - 1];
    assert forall k :: 0 <= k < |p| ==> p[..k] == es[..k] && p[k] == es[k];
  }

  /**
   Until on_close, whatever the interleaving, nothing is dropped exactly when no on_disconnect
   finds packets in the queue.
   */
  lemma {:induction false} NothingDroppedIff(es: seq<Event>)
    requires NeverCloses(es)
    ensures Opened(After(INITIAL, es))
    ensures After(INITIAL, es).shared.dropped == [] <==> NeverDrops(es)
  {
    hide Step, Drops, NeverDrops, Opened;
    if es == [] {
      NothingDroppedYet();
    } else {
      var p, e := es[..|es| - 1], es[|es| - 1];
      NothingDroppedIff(p);
      StepDrops(After(INITIAL, p), e);
      NeverDropsSnoc(es);
    }
  }

  lemma NothingDroppedYet()
    ensures Opened(INITIAL) && NeverDrops([])
  {
  }

  /**
   One at a time, nothing is dropped and the order is kept: until on_close, sent packets and queue
   are the submitted ones.
   */
  lemma {:induction false} NothingDroppedInTurn(es: seq<Event>)
    requires OneAtATime(es) && NeverCloses(es)
    ensures var s, pc := After(INITIAL, es).shared, Current(After(INITIAL, es).calls);
      s.dropped == [] && s.sent + Front(pc) + s.queue + Own(pc) == SubmittedIn(es)
  {
    OrderKept(es);
    NothingDroppedIff(es);
    var s, pc := After(INITIAL, es).shared, Current(After(INITIAL, es).calls);
    hide After, SubmittedIn;
    OpenKeepsAll(s, pc);
  }

  lemma OpenKeepsAll(s: Shared, pc: Pc)
    requires CallInv(s, pc) && s.client
    ensures s.dropped == [] && Line(s, pc) == s.sent + Front(pc) + s.queue + Own(pc)
  {
    hide Front, Own;
    assert s.sent + Front(pc) + s.queue + [] == s.sent + Front(pc) + s.queue;
  }

  // ---------------------------------------------------------------------------
  // When a connected socket's queue is empty
  // ---------------------------------------------------------------------------

  /** The call is about to queue its packet. */
  predicate IsPush(pc: Pc) { match pc case Sending(x) => x.SendPush? case Listening(x,
      _) => x.SendPush? case _ => false }

  /** The step queues a packet though the socket has become connected since the call looked. */
  predicate LatePush(s: State, e: Event) { e.Run? && e.i < |s.calls| && s.shared.connected && IsPush(s.calls[e.i]) }

  /** on_connected between the flag and the end of its loop. */
  predicate IsDraining(pc: Pc) { pc.Listening? || pc.ConnectedDrain? || pc.ConnectedFront? }

  ghost predicate Draining(s: State) { exists i :: 0 <= i < |s.calls| && IsDraining(s.calls[i]) }

  /** A connected socket's queue is empty, or an on_connected will empty it. */
  ghost predicate Tended(s: State) { s.shared.connected && s.shared.queue != [] ==> Draining(s) }

  /** What one step does to the queue of a connected socket. */
  lemma MoveTends(s: Shared, pc: Pc)
    ensures var (t, next) := Move(s, pc);
      && (IsDraining(next) ==> IsDraining(pc) || pc.ConnectedSet?)
      && (pc.ConnectedSet? ==> IsDraining(next))
      && (IsDraining(pc) && !IsDraining(next) ==> t.queue == [])
      && (!IsDraining(pc) && !pc.ConnectedSet? && t.connected && t.queue != [] && !(s.connected && s.queue != []) ==>
            s.connected && pc.Sending? && pc.send.SendPush?)
      && (s.connected && pc.Sending? && pc.send.SendPush? ==> t.connected && t.queue != [] && next == Done)
  {
  }

  lemma StepDrains(s: State, i: nat)
    requires i < |s.calls|
    ensures var t := Step(s, Run(i));
      && (IsDraining(t.calls[i]) ==> Draining(t))
      && (Draining(s) && !IsDraining(s.calls[i]) ==> Draining(t))
      && (Draining(t) && !IsDraining(t.calls[i]) ==> Draining(s))
  {
    hide Move, IsDraining;
    var t := Step(s, Run(i));
    if Draining(s) && !IsDraining(s.calls[i]) {
      var j :| 0 <= j < |s.calls| && IsDraining(s.calls[j]);
      assert t.calls[j] == s.calls[j];
    }
    if Draining(t) && !IsDraining(t.calls[i]) {
      var j :| 0 <= j < |t.calls| && IsDraining(t.calls[j]);
      assert t.calls[j] == s.calls[j];
    }
  }

  /**
   A tended queue stays tended through a step exactly when the step is no late push, or comes while
   on_connected is draining.
   */
  lemma StaysTendedIff(s: State, e: Event)
    requires Tended(s)
    ensures Tended(Step(s, e)) <==> (LatePush(s, e) ==> Draining(s))
  {
    match e
    case Call(pc) => CallTends(s, pc);
    case Run(i) =>
      if i < |s.calls| {
        MoveTends(s.shared, s.calls[i]);
        StepDrains(s, i);
        if IsDraining(s.calls[i]) {
          assert Draining(s);
        }
        hide Move, Draining;
      }
  }

  lemma CallTends(s: State, pc: Pc)
    requires Tended(s)
    ensures Tended(Step(s, Call(pc)))
  {
    var t := Step(s, Call(pc));
    if Draining(s) {
      var j :| 0 <= j < |s.calls| && IsDraining(s.calls[j]);
      assert t.calls[j] == s.calls[j];
    }
  }

  ghost predicate AlwaysTended(es: seq<Event>) { forall k :: 0 <= k <= |es| ==> Tended(After(INITIAL, es[..k])) }

  ghost predicate LatePushesAreTended(es: seq<Event>) {
    forall k :: 0 <= k < |es| && LatePush(After(INITIAL, es[..k]), es[k]) ==> Draining(After(INITIAL, es[..k]))
  }

  lemma AlwaysTendedSnoc(es: seq<Event>)
    requires es != []
    ensures AlwaysTended(es) <==> AlwaysTended(es[..|es| - 1]) && Tended(After(INITIAL, es))
  {
    hide After, Tended;
    var p := es[..|es| - 1];
    assert forall k :: 0 <= k <= |p| ==> p[..k] == es[..k];
    assert es[..|es|] == es;
  }

  lemma LatePushesSnoc(es: seq<Event>)
    requires es != []
    ensures var n := |es| - 1;
      LatePushesAreTended(es) <==>
      (LatePushesAreTended(es[..n]) && (LatePush(After(INITIAL, es[..n]), es[n]) ==> Draining(After(INITIAL, es[..n]))))
  {
    hide After, LatePush, Draining;
    var p := es[..|es| - 1];
    assert forall k :: 0 <= k < |p| ==> p[..k] == es[..k] && p[k] == es[k];
  }

  /**
   All through a run a connected socket's queue is empty or about to be emptied by on_connected
   exactly when every late push comes while on_connected is draining.
   */
  lemma {:induction false} TendedIff(es: seq<Event>)
    ensures AlwaysTended(es) <==> LatePushesAreTended(es)
  {
    if es == [] {
      TendedAtFirst();
    } else {
      hide Step, Tended, Draining, LatePush, AlwaysTended, LatePushesAreTended;
      var p, e := es[..|es| - 1], es[|es| - 1];
      TendedIff(p);
      AlwaysTendedSnoc(es);
      LatePushesSnoc(es);
      TendedAtEnd(p);
      if AlwaysTended(p) {
        StaysTendedIff(After(INITIAL, p), e);
      }
    }
  }

  lemma TendedAtFirst()
    ensures AlwaysTended([]) && LatePushesAreTended([])
  {
  }

  lemma TendedAtEnd(es: seq<Event>)
    ensures AlwaysTended(es) ==> Tended(After(INITIAL, es))
  {
    hide After, Tended;
    assert es[..|es|] == es;
  }

  /** With no call under way, tended means empty. */
  lemma EmptyWhenQuiet(es: seq<Event>)
    requires LatePushesAreTended(es) && AllDone(After(INITIAL, es).calls)
    ensures After(INITIAL, es).shared.connected ==> After(INITIAL, es).shared.queue == []
  {
    TendedIff(es);
    TendedAtEnd(es);
  }

  // ---------------------------------------------------------------------------
  // When a drop is imminent
  // ---------------------------------------------------------------------------

  /** Some on_disconnect has cleared the flag and not yet dropped the queue. */
  ghost predicate AtDrop(s: State) { exists i :: 0 <= i < |s.calls| && s.calls[i] == DisconnectDrop }

  /** The next step of such a call would drop packets. */
  ghost predicate DropImminent(s: State) { s.shared.queue != [] && AtDrop(s) }

  /** It is what lets a step drop something, until on_close. */
  lemma DropsIffImminent(s: State)
    requires Opened(s)
    ensures DropImminent(s) <==> exists i :: Drops(s, Run(i))
  {
    if DropImminent(s) {
      var i :| 0 <= i < |s.calls| && s.calls[i] == DisconnectDrop;
      assert Drops(s, Run(i));
    }
  }

  /** on_disconnect clears the flag with packets in the queue, or a packet is queued before it drops the queue. */
  ghost predicate PreparesDrop(s: State, e: Event) {
    e.Run? && e.i < |s.calls| &&
    ((s.calls[e.i] == DisconnectClear && s.shared.queue != []) || (IsPush(s.calls[e.i]) && AtDrop(s)))
  }

  lemma MoveToDrop(s: Shared, pc: Pc)
    ensures var (t, next) := Move(s, pc);
      && (next == DisconnectDrop <==> pc == DisconnectClear)
      && (t.queue != [] ==> s.queue != [] || IsPush(pc))
      && (IsPush(pc) ==> t.queue != [])
      && (pc == DisconnectClear ==> t.queue == s.queue)
      && (pc == DisconnectDrop ==> t.queue == [])
  {
  }

  lemma StepAtDrop(s: State, i: nat)
    requires i < |s.calls|
    ensures var t := Step(s, Run(i));
      && (t.calls[i] == DisconnectDrop ==> AtDrop(t))
      && (s.calls[i] != DisconnectDrop && t.calls[i] != DisconnectDrop ==> (AtDrop(t) <==> AtDrop(s)))
  {
    hide Move;
    var t := Step(s, Run(i));
    if s.calls[i] != DisconnectDrop && AtDrop(s) {
      var j :| 0 <= j < |s.calls| && s.calls[j] == DisconnectDrop;
      assert t.calls[j] == DisconnectDrop;
    }
    if t.calls[i] != DisconnectDrop && AtDrop(t) {
      var j :| 0 <= j < |t.calls| && t.calls[j] == DisconnectDrop;
      assert s.calls[j] == DisconnectDrop;
    }
  }

  /** In every interleaving a drop becomes imminent exactly with such a step. */
  lemma BecomesImminentIff(s: State, e: Event)
    requires !DropImminent(s)
    ensures DropImminent(Step(s, e)) <==> PreparesDrop(s, e)
  {
    match e
    case Call(pc) => CallAtDrop(s, pc);
    case Run(i) =>
      if i < |s.calls| {
        MoveToDrop(s.shared, s.calls[i]);
        StepAtDrop(s, i);
        hide Move, AtDrop;
      }
  }

  lemma CallAtDrop(s: State, pc: Pc)
    ensures AtDrop(Step(s, Call(pc))) <==> AtDrop(s)
    ensures Step(s, Call(pc)).shared == s.shared
  {
    var t := Step(s, Call(pc));
    if AtDrop(s) {
      var j :| 0 <= j < |s.calls| && s.calls[j] == DisconnectDrop;
      assert t.calls[j] == DisconnectDrop;
    }
    if AtDrop(t) {
      var j :| 0 <= j < |t.calls| && t.calls[j] == DisconnectDrop;
      assert s.calls[j] == DisconnectDrop;
    }
  }

  // ---------------------------------------------------------------------------
  // Handlers on one network thread
  // ---------------------------------------------------------------------------

  /** on_connected or on_disconnect is under way; the client calls both from its network thread. */
  predicate IsHandler(pc: Pc) { !pc.Sending? && !IsClosing(pc) && pc != Done }

  ghost predicate NoHandler(calls: seq<Pc>) { forall i :: 0 <= i < |calls| ==> !IsHandler(calls[i]) }

  /** So a handler begins only when none is under way; calls of send_packet and close() overlap as they like. */
  ghost predicate OneNetworkThread(es: seq<Event>) {
    forall k :: 0 <= k < |es| && es[k].Call? && IsHandler(es[k].pc) ==> NoHandler(After(INITIAL, es[..k]).calls)
  }

  ghost predicate OneHandler(calls: seq<Pc>) {
    forall i, j :: 0 <= i < j < |calls| ==> !IsHandler(calls[i]) || !IsHandler(calls[j])
  }

  /** With one handler at a time, a socket about to be disconnected is still connected. */
  ghost predicate Disciplined(s: State) {
    && OneHandler(s.calls) && Opened(s)
    && forall i :: 0 <= i < |s.calls| && s.calls[i] == DisconnectClear ==> s.shared.connected
  }

  lemma MoveDisciplined(s: Shared, pc: Pc)
    requires s.client && !IsClosing(pc) && (pc == DisconnectClear ==> s.connected)
    ensures var (t, next) := Move(s, pc);
      && (IsHandler(next) ==> IsHandler(pc))
      && (next == DisconnectClear ==> t.connected)
      && (!IsHandler(pc) ==> t.connected == s.connected)
  {
  }

  lemma StepDisciplined(s: State, e: Event)
    requires Disciplined(s) && (e.Call? ==> e.pc != CloseGuard && (IsHandler(e.pc) ==> NoHandler(s.calls)))
    ensures Disciplined(Step(s, e))
  {
    StepDrops(s, e);
    if e.Run? && e.i < |s.calls| {
      MoveDisciplined(s.shared, s.calls[e.i]);
    }
    hide Move, Opened, IsClosing;
  }

  /**
   on_disconnect clears the flag of a connected socket whose queue nobody tends, or a packet is
   queued before it drops the queue.
   */
  ghost predicate LosesTrack(s: State, e: Event) {
    e.Run? && e.i < |s.calls| &&
    ((s.calls[e.i] == DisconnectClear && !Tended(s)) || (IsPush(s.calls[e.i]) && AtDrop(s)))
  }

  lemma LosesTrackIff(s: State, e: Event)
    requires Disciplined(s)
    ensures LosesTrack(s, e) <==> PreparesDrop(s, e)
  {
    if e.Run? && e.i < |s.calls| && s.calls[e.i] == DisconnectClear {
      ClearIsAlone(s, e.i);
    }
  }

  lemma ClearIsAlone(s: State, i: nat)
    requires OneHandler(s.calls) && i < |s.calls| && s.calls[i] == DisconnectClear
    ensures !Draining(s)
  {
    forall j | 0 <= j < |s.calls| && j != i ensures !IsDraining(s.calls[j]) {
      var first, second := if i < j then i else j, if i < j then j else i;
      assert !IsHandler(s.calls[first]) || !IsHandler(s.calls[second]);
    }
  }

  /** A step of the one handler, or a push, makes a drop imminent in these two ways and no other. */
  lemma HandlerMakesImminentIff(s: State, e: Event)
    requires Disciplined(s) && !DropImminent(s)
    ensures DropImminent(Step(s, e)) <==> LosesTrack(s, e)
  {
    BecomesImminentIff(s, e);
    LosesTrackIff(s, e);
  }

  ghost predicate NeverImminent(es: seq<Event>) { forall k :: 0 <= k <= |es| ==>
      !DropImminent(After(INITIAL, es[..k])) }

  ghost predicate NeverLosesTrack(es: seq<Event>) {
    forall k :: 0 <= k < |es| ==> !LosesTrack(After(INITIAL, es[..k]), es[k])
  }

  lemma NeverImminentSnoc(es: seq<Event>)
    requires es != []
    ensures NeverImminent(es) <==> NeverImminent(es[..|es| - 1]) && !DropImminent(After(INITIAL, es))
  {
    hide After, DropImminent;
    var p := es[..|es| - 1];
    assert forall k :: 0 <= k <= |p| ==> p[..k] == es[..k];
    assert es[..|es|] == es;
  }

  lemma NeverLosesTrackSnoc(es: seq<Event>)
    requires es != []
    ensures var n := |es| - 1;
      NeverLosesTrack(es) <==> NeverLosesTrack(es[..n]) && !LosesTrack(After(INITIAL, es[..n]), es[n])
  {
    hide After, LosesTrack;
    var p := es[..|es| - 1];
    assert forall k :: 0 <= k < |p| ==> p[..k] == es[..k] && p[k] == es[k];
  }

  lemma ImminentAtEnd(es: seq<Event>)
    ensures NeverImminent(es) ==> !DropImminent(After(INITIAL, es))
  {
    hide After, DropImminent;
    assert es[..|es|] == es;
  }

  lemma NoneImminentYet()
    ensures NeverImminent([]) && NeverLosesTrack([]) && Disciplined(INITIAL) && INITIAL.shared.dropped == []
  {
  }

  /**
   Until on_close, with the handlers on one network thread, no step of the run could have dropped
   a packet exactly when no on_disconnect clears the flag while the queue is untended, and no packet
   is queued between an on_disconnect's clearing of the flag and its drop.
   */
  lemma {:induction false} NeverImminentIff(es: seq<Event>)
    requires NeverCloses(es) && OneNetworkThread(es)
    ensures Disciplined(After(INITIAL, es))
    ensures NeverImminent(es) <==> NeverLosesTrack(es)
  {
    hide Step, DropImminent, LosesTrack, NeverImminent, NeverLosesTrack, Disciplined, NoHandler;
    if es == [] {
      NoneImminentYet();
    } else {
      var p, e := es[..|es| - 1], es[|es| - 1];
      assert NeverCloses(p) && OneNetworkThread(p) by { NetworkPrefix(es); }
      NeverImminentIff(p);
      NeverImminentSnoc(es);
      NeverLosesTrackSnoc(es);
      ImminentAtEnd(p);
      var s := After(INITIAL, p);
      StepDisciplined(s, e);
      if NeverImminent(p) {
        HandlerMakesImminentIff(s, e);
      }
    }
  }

  lemma NetworkPrefix(es: seq<Event>)
    requires es != [] && NeverCloses(es) && OneNetworkThread(es)
    ensures NeverCloses(es[..|es| - 1]) && OneNetworkThread(es[..|es| - 1])
  {
    hide After, NoHandler;
    var p := es[..|es| - 1];
    assert forall k :: 0 <= k < |p| ==> p[..k] == es[..k] && p[k] == es[k];
  }

  /** Then nothing is dropped. */
  lemma {:induction false} NothingDropped(es: seq<Event>)
    requires NeverCloses(es) && NeverImminent(es)
    ensures After(INITIAL, es).shared.dropped == []
  {
    NothingDroppedIff(es);
    forall k | 0 <= k < |es| ensures !Drops(After(INITIAL, es[..k]), es[k]) {
      assert !DropImminent(After(INITIAL, es[..k]));
      NotImminentDropsNot(After(INITIAL, es[..k]), es[k]);
    }
  }

  lemma NotImminentDropsNot(s: State, e: Event)
    requires !DropImminent(s)
    ensures !Drops(s, e)
  {
  }

  /** No packet is queued between an on_disconnect's clearing of the flag and its drop. */
  ghost predicate NoPushAtDrop(es: seq<Event>) {
    forall k :: 0 <= k < |es| && AtDrop(After(INITIAL, es[..k])) ==>
      !(es[k].Run? && es[k].i < |After(INITIAL, es[..k]).calls| && IsPush(After(INITIAL, es[..k]).calls[es[k].i]))
  }

  /** A condition on pushes alone: late ones come while on_connected is draining, and none comes just before a drop. */
  lemma {:induction false} TimelyPushesAreKept(es: seq<Event>)
    requires NeverCloses(es) && OneNetworkThread(es) && LatePushesAreTended(es) && NoPushAtDrop(es)
    ensures After(INITIAL, es).shared.dropped == []
  {
    TendedIff(es);
    NeverImminentIff(es);
    forall k | 0 <= k < |es| ensures !LosesTrack(After(INITIAL, es[..k]), es[k]) {
      assert Tended(After(INITIAL, es[..k]));
    }
    NothingDropped(es);
  }

  // ---------------------------------------------------------------------------
  // Calls that run alone
  // ---------------------------------------------------------------------------

  /** n steps of one call while no other call moves. */
  function Alone(s: Shared, pc: Pc, n: nat): (Shared, Pc)
    decreases n
  {
    if n == 0 then (s, pc) else Alone(Move(s, pc).0, Move(s, pc).1, n - 1)
  }

  /** The call gets from one point to the other by itself. */
  ghost predicate Reaches(s: Shared, pc: Pc, t: Shared, next: Pc) { exists n :: Alone(s, pc, n) == (t, next) }

  lemma {:induction false} AloneThen(s: Shared, pc: Pc, m: nat, n: nat)
    ensures Alone(s, pc, m + n) == Alone(Alone(s, pc, m).0, Alone(s, pc, m).1, n)
    decreases m
  {
    hide Move;
    if m > 0 {
      AloneThen(Move(s, pc).0, Move(s, pc).1, m - 1, n);
    }
  }

  lemma OneStep(s: Shared, pc: Pc)
    ensures Reaches(s, pc, s, pc) && Reaches(s, pc, Move(s, pc).0, Move(s, pc).1)
  {
    hide Move;
    var t := Move(s, pc);
    assert Alone(s, pc, 0) == (s, pc);
    assert Alone(t.0, t.1, 0) == t;
    assert Alone(s, pc, 1) == t;
  }

  lemma ThenOn(s: Shared, pc: Pc, t: Shared, qc: Pc, u: Shared, rc: Pc)
    requires Reaches(s, pc, t, qc) && Reaches(t, qc, u, rc)
    ensures Reaches(s, pc, u, rc)
  {
    hide Alone;
    var m :| Alone(s, pc, m) == (t, qc);
    var n :| Alone(t, qc, n) == (u, rc);
    AloneThen(s, pc, m, n);
  }

  lemma StepThenOn(s: Shared, pc: Pc, u: Shared, rc: Pc)
    requires Reaches(Move(s, pc).0, Move(s, pc).1, u, rc)
    ensures Reaches(s, pc, u, rc)
  {
    hide Move, Reaches;
    OneStep(s, pc);
    ThenOn(s, pc, Move(s, pc).0, Move(s, pc).1, u, rc);
  }

  function SocketOf(s: Shared): SioSocket.State<Packet> {
    SioSocket.State(s.client, s.connected, s.queue, s.sent, s.dropped)
  }

  function SharedOf(s: SioSocket.State<Packet>): Shared { Shared(s.client, s.connected, s.queue, s.sent, s.dropped) }

  function Flushed(s: Shared): Shared { SharedOf(SioSocket.Flushed(SocketOf(s))) }

  function Did(s: Shared, a: Action): Shared { SharedOf(SioSocket.Did(SocketOf(s), a)) }

  function DidAll(s: Shared, actions: seq<Action>): Shared { SharedOf(SioSocket.DidAll(SocketOf(s), actions)) }

  /** send_packet or close() as a call of its own, or as part of a listener with actions left. */
  function InCall(rest: Option<seq<Action>>, x: Sender): Pc {
    match rest
    case None => if x == Over then Done else Sending(x)
    case Some(actions) => Listening(x, actions)
  }

  lemma SenderStep(s: Shared, rest: Option<seq<Action>>, x: Sender, u: Shared, rc: Pc)
    requires x != Over && Reaches(SendMove(s, x).0, InCall(rest, SendMove(s, x).1), u, rc)
    ensures Reaches(s, InCall(rest, x), u, rc)
  {
    hide Reaches, SendMove;
    StepThenOn(s, InCall(rest, x), u, rc);
  }

  /** The loop of send_packet empties the queue. */
  lemma {:induction false} SendLoopAlone(s: Shared, rest: Option<seq<Action>>, p: Packet)
    requires s.client
    ensures Reaches(s, InCall(rest, SendDrain(p)), Flushed(s), InCall(rest, SendDrain(p)))
    decreases |s.queue|
  {
    hide Reaches;
    if s.queue == [] {
      assert Flushed(s) == s by { assert s.sent + [] == s.sent; }
      OneStep(s, InCall(rest, SendDrain(p)));
    } else {
      var t := Popped(s).(sent := s.sent + [s.queue[0]]);
      SendLoopAlone(t, rest, p);
      FlushedOne(s);
      hide Flushed, InCall;
      SenderStep(Popped(s), rest, SendFront(p, s.queue[0]), Flushed(s), InCall(rest, SendDrain(p)));
      SenderStep(s, rest, SendDrain(p), Flushed(s), InCall(rest, SendDrain(p)));
    }
  }

  lemma FlushedOne(s: Shared)
    requires s.queue != []
    ensures Flushed(Popped(s).(sent := s.sent + [s.queue[0]])) == Flushed(s)
  {
    assert s.sent + [s.queue[0]] + s.queue[1..] == s.sent + s.queue;
  }

  /** And so does the loop of on_connected. */
  lemma {:induction false} ConnectedLoopAlone(s: Shared)
    requires s.client
    ensures Reaches(s, ConnectedDrain, Flushed(s), Done)
    decreases |s.queue|
  {
    hide Reaches;
    if s.queue == [] {
      assert Flushed(s) == s by { assert s.sent + [] == s.sent; }
      OneStep(s, ConnectedDrain);
    } else {
      var t := Popped(s).(sent := s.sent + [s.queue[0]]);
      ConnectedLoopAlone(t);
      FlushedOne(s);
      hide Flushed;
      StepThenOn(Popped(s), ConnectedFront(s.queue[0]), Flushed(s), Done);
      StepThenOn(s, ConnectedDrain, Flushed(s), Done);
    }
  }

  lemma EmitAlone(s: Shared, rest: Option<seq<Action>>, p: Packet)
    ensures Reaches(s, InCall(rest, SendGuard(p)), Did(s, SioSocket.Emit(p)), InCall(rest, Over))
  {
    hide Reaches, InCall, Flushed;
    var t := Did(s, SioSocket.Emit(p));
    OneStep(t, InCall(rest, Over));
    if s.client && s.connected {
      SendLoopAlone(s, rest, p);
      FlushedThen(s, p);
      hide Did;
      SenderStep(Flushed(s), rest, SendOwn(p), t, InCall(rest, Over));
      SenderStep(Flushed(s), rest, SendDrain(p), t, InCall(rest, Over));
      ThenOn(s, InCall(rest, SendDrain(p)), Flushed(s), InCall(rest, SendDrain(p)), t, InCall(rest, Over));
      SenderStep(s, rest, SendCheck(p), t, InCall(rest, Over));
      SenderStep(s, rest, SendGuard(p), t, InCall(rest, Over));
    } else if s.client {
      SenderStep(s, rest, SendPush(p), t, InCall(rest, Over));
      SenderStep(s, rest, SendCheck(p), t, InCall(rest, Over));
      SenderStep(s, rest, SendGuard(p), t, InCall(rest, Over));
    } else {
      SenderStep(s, rest, SendGuard(p), t, InCall(rest, Over));
    }
  }

  lemma FlushedThen(s: Shared, p: Packet)
    requires s.client && s.connected
    ensures var t := Flushed(s); t.client && t.queue == [] && Did(s, SioSocket.Emit(p)) == t.(sent := t.sent + [p])
  {
  }

  /** Undisturbed, send_packet and close() are the one step that they are for handlers that do not interleave. */
  lemma ActionAlone(s: Shared, rest: Option<seq<Action>>, a: Action)
    ensures Reaches(s, InCall(rest, Begin(a)), Did(s, a), InCall(rest, Over))
  {
    hide Reaches, InCall;
    match a
    case Emit(p) => EmitAlone(s, rest, p);
    case Close(p) =>
      OneStep(s, InCall(rest, Over));
      if s.client && s.connected {
        EmitAlone(s, rest, p);
        SenderStep(s, rest, EndCheck(p), Did(s, a), InCall(rest, Over));
      } else if s.client {
        SenderStep(s, rest, EndCheck(p), s, InCall(rest, Over));
      }
      SenderStep(s, rest, EndGuard(p), Did(s, a), InCall(rest, Over));
  }

  /** One action of the listener after the other. */
  lemma {:induction false} ListenerAlone(s: Shared, actions: seq<Action>)
    ensures Reaches(s, Listening(Over, actions), DidAll(s, actions), Listening(Over, []))
    decreases |actions|
  {
    hide Reaches;
    if actions == [] {
      OneStep(s, Listening(Over, []));
    } else {
      var t := Did(s, actions[0]);
      ListenerAlone(t, actions[1..]);
      ActionAlone(s, Some(actions[1..]), actions[0]);
      ThenOn(s, Listening(Begin(actions[0]), actions[1..]), t, Listening(Over, actions[1..]), DidAll(s, actions),
        Listening(Over, []));
      StepThenOn(s, Listening(Over, actions), DidAll(s, actions), Listening(Over, []));
    }
  }

  /** Undisturbed, on_connected with any listener is one step as well. */
  lemma ConnectedAlone(s: Shared, listener: seq<Action>)
    ensures Reaches(s, ConnectedGuard(listener),
      SharedOf(SioSocket.Step(SocketOf(s), SioSocket.OnConnected(listener))), Done)
  {
    hide Reaches;
    var end := SharedOf(SioSocket.Step(SocketOf(s), SioSocket.OnConnected(listener)));
    if s.client && !s.connected {
      var t := s.(connected := true);
      var u := DidAll(t, listener);
      ListenerAlone(t, listener);
      ClientStays(t, listener);
      ConnectedLoopAlone(u);
      hide DidAll, Flushed;
      StepThenOn(u, Listening(Over, []), Flushed(u), Done);
      ThenOn(t, Listening(Over, listener), u, Listening(Over, []), Flushed(u), Done);
      StepThenOn(s, ConnectedSet(listener), Flushed(u), Done);
      StepThenOn(s, ConnectedCheck(listener), Flushed(u), Done);
    } else if s.client {
      OneStep(s, ConnectedCheck(listener));
    } else {
      OneStep(s, Done);
    }
    StepThenOn(s, ConnectedGuard(listener), end, Done);
  }

  lemma {:induction false} ClientStays(s: Shared, actions: seq<Action>)
    ensures DidAll(s, actions).client == s.client
    decreases |actions|
  {
    if actions != [] {
      ClientStays(Did(s, actions[0]), actions[1..]);
    }
  }

  lemma DisconnectAlone(s: Shared)
    ensures Reaches(s, DisconnectGuard, SharedOf(SioSocket.Step(SocketOf(s), SioSocket.OnDisconnect)), Done)
  {
    hide Reaches;
    var end := SharedOf(SioSocket.Step(SocketOf(s), SioSocket.OnDisconnect));
    OneStep(end, Done);
    if s.client {
      if s.connected {
        StepThenOn(s.(connected := false), DisconnectDrop, end, Done);
        StepThenOn(s, DisconnectClear, end, Done);
      }
      StepThenOn(s, DisconnectCheck, end, Done);
    }
    StepThenOn(s, DisconnectGuard, end, Done);
  }

  lemma CloseAlone(s: Shared)
    ensures Reaches(s, CloseGuard, SharedOf(SioSocket.Step(SocketOf(s), SioSocket.OnClose)), Done)
  {
    hide Reaches;
    var end := SharedOf(SioSocket.Step(SocketOf(s), SioSocket.OnClose));
    OneStep(end, Done);
    if s.client {
      StepThenOn(s.(client := false, connected := false), CloseDrop, end, Done);
      StepThenOn(s.(client := false), CloseClear, end, Done);
      StepThenOn(s, CloseNull, end, Done);
    }
    StepThenOn(s, CloseGuard, end, Done);
  }

  // ---------------------------------------------------------------------------
  // What overlapping calls cost
  // ---------------------------------------------------------------------------

  function Open(connected: bool, queue: seq<Packet>,
      sent: seq<Packet>): Shared { Shared(true, connected, queue, sent, []) }

  ghost predicate NeverLate(es: seq<Event>) {
    forall k :: 0 <= k < |es| ==> !LatePush(After(INITIAL, es[..k]), es[k])
  }

  /** A run without on_close, its handlers on one network thread: where it leads, and what was submitted in it. */
  ghost predicate Leads(es: seq<Event>, s: State, submitted: seq<Packet>) {
    After(INITIAL, es) == s && SubmittedIn(es) == submitted && NeverCloses(es) && OneNetworkThread(es)
  }

  /** A new call begins. */
  lemma Called(es: seq<Event>, s: Shared, calls: seq<Pc>, submitted: seq<Packet>, pc: Pc, now: seq<Packet>)
      returns (next: seq<Event>)
    requires Leads(es, State(s, calls), submitted) && IsEntry(pc) && pc != CloseGuard &&
      (IsHandler(pc) ==> NoHandler(calls))
    requires now == submitted + SubmittedBy(State(s, calls), Call(pc))
    ensures Leads(next, State(s, calls + [pc] + []), now)
    ensures NeverLate(es) ==> NeverLate(next)
  {
    next := es + [Call(pc)];
    assert next[..|es|] == es && calls + [pc] + [] == calls + [pc];
    assert forall k :: 0 <= k < |es| ==> next[..k] == es[..k] && next[k] == es[k];
  }

  /** A call between others moves on. */
  lemma Ran(es: seq<Event>, s: Shared, before: seq<Pc>, pc: Pc, after: seq<Pc>, submitted: seq<Packet>, t: Shared,
      qc: Pc)
    returns (next: seq<Event>)
    requires Leads(es, State(s, before + [pc] + after), submitted) && Gives(s, pc) == []
    requires Move(s, pc).0 == t && Move(s, pc).1 == qc
    ensures Leads(next, State(t, before + [qc] + after), submitted)
    ensures NeverLate(es) && !(s.connected && IsPush(pc)) ==> NeverLate(next)
  {
    hide Move, Gives;
    var i, calls := |before|, before + [pc] + after;
    next := es + [Run(i)];
    assert next[..|es|] == es;
    assert calls[i] == pc && calls[i := qc] == before + [qc] + after;
    assert forall k :: 0 <= k < |es| ==> next[..k] == es[..k] && next[k] == es[k];
    assert submitted + [] == submitted;
  }

  lemma Begins()
    ensures Leads([], INITIAL, []) && NeverLate([])
  {
  }

  /**
   send_packet finds the socket not connected; on_connected sets the flag and sends all it finds;
   then the packet is queued.
   */
  lemma StrandedRun() returns (es: seq<Event>)
    ensures Leads(es, State(Open(true, [1], []), [Done, Done]), [1])
  {
    hide Leads;
    Begins();
    var s, t := Open(false, [], []), Open(true, [], []);
    es := Called([], s, [], [], Sending(SendGuard(1)), [1]);
    es := Ran(es, s, [], Sending(SendGuard(1)), [], [1], s, Sending(SendCheck(1)));
    es := Ran(es, s, [], Sending(SendCheck(1)), [], [1], s, Sending(SendPush(1)));
    es := ConnectedMeanwhile(es, [] + [Sending(SendPush(1))] + [], [1]);
    assert [] + [Sending(SendPush(1))] + [] + [Done] + [] == [] + [Sending(SendPush(1))] + [Done];
    es := Ran(es, t, [], Sending(SendPush(1)), [Done], [1], Open(true, [1], []), Done);
    assert [] + [Done] + [Done] == [Done, Done];
  }

  /** on_connected from its beginning to its end, with nothing in the queue. */
  lemma ConnectedMeanwhile(start: seq<Event>, calls: seq<Pc>, submitted: seq<Packet>) returns (es: seq<Event>)
    requires Leads(start, State(Open(false, [], []), calls), submitted) && NoHandler(calls)
    ensures Leads(es, State(Open(true, [], []), calls + [Done] + []), submitted)
    ensures NeverLate(start) ==> NeverLate(es)
  {
    hide Leads, NeverLate;
    var s, t := Open(false, [], []), Open(true, [], []);
    es := Called(start, s, calls, submitted, ConnectedGuard([]), submitted);
    es := Ran(es, s, calls, ConnectedGuard([]), [], submitted, s, ConnectedCheck([]));
    es := Ran(es, s, calls, ConnectedCheck([]), [], submitted, s, ConnectedSet([]));
    es := Ran(es, s, calls, ConnectedSet([]), [], submitted, t, Listening(Over, []));
    es := Ran(es, t, calls, Listening(Over, []), [], submitted, t, ConnectedDrain);
    es := Ran(es, t, calls, ConnectedDrain, [], submitted, t, Done);
  }

  /** With no call under way, a connected socket can have a packet in its queue. */
  lemma ConnectedWithQueue()
    ensures exists es :: Leads(es, State(Open(true, [1], []), [Done, Done]), [1])
  {
    var es := StrandedRun();
  }

  /** on_disconnect up to its drop. */
  lemma HalfDisconnected(start: seq<Event>, calls: seq<Pc>, queue: seq<Packet>, submitted: seq<Packet>)
      returns (es: seq<Event>)
    requires Leads(start, State(Open(true, queue, []), calls), submitted) && NoHandler(calls)
    ensures Leads(es, State(Open(false, queue, []), calls + [DisconnectDrop] + []), submitted)
    ensures NeverLate(start) ==> NeverLate(es)
  {
    hide Leads, NeverLate;
    var s := Open(true, queue, []);
    es := Called(start, s, calls, submitted, DisconnectGuard, submitted);
    es := Ran(es, s, calls, DisconnectGuard, [], submitted, s, DisconnectCheck);
    es := Ran(es, s, calls, DisconnectCheck, [], submitted, s, DisconnectClear);
    es := Ran(es, s, calls, DisconnectClear, [], submitted, Open(false, queue, []), DisconnectDrop);
  }

  /** A disconnect then drops it, though on_close was never called. */
  lemma DroppedByDisconnect()
    ensures exists es :: Leads(es, State(Shared(true, false, [], [], [1]), [Done, Done, Done]), [1])
  {
    hide Leads;
    var es := StrandedRun();
    var calls := [Done, Done];
    es := HalfDisconnected(es, calls, [1], [1]);
    es := Ran(es, Open(false, [1], []), calls, DisconnectDrop, [], [1], Shared(true, false, [], [], [1]), Done);
    assert calls + [Done] + [] == [Done, Done, Done];
  }

  /** A packet queued between on_disconnect's last two steps is dropped as well, without any late push. */
  lemma DroppedWhileDisconnecting()
    ensures exists es :: NeverLate(es) && Leads(es, State(Shared(true, false, [], [], [1]), [Done, Done, Done]), [1])
  {
    hide Leads, NeverLate;
    Begins();
    var s := Open(false, [], []);
    var es := ConnectedMeanwhile([], [], []);
    es := HalfDisconnected(es, [] + [Done] + [], [], []);
    var calls := [] + [Done] + [] + [DisconnectDrop] + [];
    es := Called(es, s, calls, [], Sending(SendGuard(1)), [1]);
    es := Ran(es, s, calls, Sending(SendGuard(1)), [], [1], s, Sending(SendCheck(1)));
    es := Ran(es, s, calls, Sending(SendCheck(1)), [], [1], s, Sending(SendPush(1)));
    es := Ran(es, s, calls, Sending(SendPush(1)), [], [1], Open(false, [1], []), Done);
    assert calls + [Done] + [] == [Done] + [DisconnectDrop] + [Done];
    es := Ran(es, Open(false, [1], []), [Done], DisconnectDrop, [Done], [1], Shared(true, false, [], [], [1]), Done);
    assert [Done] + [Done] + [Done] == [Done, Done, Done];
  }

  /** Two senders: the second overtakes the packet that the first took from the queue. */
  lemma Overtaken()
    ensures exists es :: Leads(es, State(Open(true, [], [3, 1, 2]), [Done, Done, Done, Done]), [1, 2, 3])
  {
    hide Leads;
    var es := StrandedRun();
    var calls, first := [Done, Done], Sending(SendFront(2, 1));
    es := TakesOne(es, calls, [1], 2, 1, [1, 2]);
    es := SendsOwn(es, calls + [first] + [], [1, 2], 3, [1, 2, 3]);
    assert calls + [first] + [] + [Done] + [] == calls + [first] + [Done];
    es := FinishesLater(es, calls, [Done], [3], 2, 1, [1, 2, 3]);
    assert calls + [Done] + [Done] == [Done, Done, Done, Done];
    assert [3] + [1] + [2] == [3, 1, 2];
  }

  /** send_packet up to where it has taken a packet from the queue. */
  lemma TakesOne(start: seq<Event>, calls: seq<Pc>, submitted: seq<Packet>, p: Packet, front: Packet,
      now: seq<Packet>) returns (es: seq<Event>)
    requires Leads(start, State(Open(true, [front], []), calls), submitted) && now == submitted + [p]
    ensures Leads(es, State(Open(true, [], []), calls + [Sending(SendFront(p, front))] + []), now)
  {
    hide Leads;
    var s := Open(true, [front], []);
    es := Called(start, s, calls, submitted, Sending(SendGuard(p)), now);
    es := Ran(es, s, calls, Sending(SendGuard(p)), [], now, s, Sending(SendCheck(p)));
    es := Ran(es, s, calls, Sending(SendCheck(p)), [], now, s, Sending(SendDrain(p)));
    es := Ran(es, s, calls, Sending(SendDrain(p)), [], now, Open(true, [], []), Sending(SendFront(p, front)));
  }

  /** send_packet from its beginning to its end, with nothing in the queue. */
  lemma SendsOwn(start: seq<Event>, calls: seq<Pc>, submitted: seq<Packet>, p: Packet, now: seq<Packet>)
      returns (es: seq<Event>)
    requires Leads(start, State(Open(true, [], []), calls), submitted) && now == submitted + [p]
    ensures Leads(es, State(Open(true, [], [p]), calls + [Done] + []), now)
  {
    hide Leads;
    var s := Open(true, [], []);
    es := Called(start, s, calls, submitted, Sending(SendGuard(p)), now);
    es := Ran(es, s, calls, Sending(SendGuard(p)), [], now, s, Sending(SendCheck(p)));
    es := Ran(es, s, calls, Sending(SendCheck(p)), [], now, s, Sending(SendDrain(p)));
    es := Ran(es, s, calls, Sending(SendDrain(p)), [], now, s, Sending(SendOwn(p)));
    es := Ran(es, s, calls, Sending(SendOwn(p)), [], now, Open(true, [], [p]), Done);
  }

  lemma FinishesLater(start: seq<Event>, before: seq<Pc>, after: seq<Pc>, sent: seq<Packet>, p: Packet, front: Packet,
      submitted: seq<Packet>)
    returns (es: seq<Event>)
    requires Leads(start, State(Open(true, [], sent), before + [Sending(SendFront(p, front))] + after), submitted)
    ensures Leads(es, State(Open(true, [], sent + [front] + [p]), before + [Done] + after), submitted)
  {
    hide Leads;
    var s := Open(true, [], sent + [front]);
    es := Ran(start, Open(true, [], sent), before, Sending(SendFront(p, front)), after, submitted, s,
      Sending(SendDrain(p)));
    es := Ran(es, s, before, Sending(SendDrain(p)), after, submitted, s, Sending(SendOwn(p)));
    es := Ran(es, s, before, Sending(SendOwn(p)), after, submitted, Open(true, [], sent + [front] + [p]), Done);
  }
}
