/**
 The client's connection: connect, close and reconnect, as a state machine over the calls of the
 user's threads and the handlers of the network thread, each of them one step.
 */
module SioClient {

  const UNSIGNED_MAX: nat := 0xFFFF_FFFF

  type unsigned = n: nat | n <= UNSIGNED_MAX

  datatype ConState = Opening | Opened | Closing | Closed

  /** Handlers that another thread posted to the network thread. */
  datatype Task = ConnectTask | CloseTask

  /** Where the caller of connect() or sync_close() is; a join waits for the run loop to end. */
  datatype Caller = Idle | Cancelled | JoiningToConnect | JoiningToClose

  /** What asio and websocketpp hold on the client's behalf. */
  datatype Net = Net(
    waiting: bool,           // the timer has not expired yet
    expired: nat,            // handlers of expired timers, which cannot be cancelled any more
    queue: seq<Task>,
    connecting: nat,
    live: nat,
    looping: bool)           // the run loop has not returned

  /** The fields of client_impl, the network, and where the caller is. */
  datatype State = State(
    conState: ConState,
    made: unsigned,          // reconnects since the last connect() or successful open
    attempts: unsigned,
    delay: unsigned,
    delayMax: unsigned,
    abort: bool,
    timer: bool,             // m_reconn_timer is not null
    con: bool,               // m_con has not expired
    thread: bool,            // m_network_thread is not null
    net: Net,
    caller: Caller)

  /** Calls, handlers, and the moves of asio. */
  datatype Event =
    | ConnectCancels | ConnectChecks | ConnectFinishes
    | Close | CloseInHandler
    | SyncClose | SyncCloseFinishes
    | SetAttempts(n: unsigned) | SetDelay(millis: unsigned) | SetDelayMax(millis: unsigned)
    | RunTask(ok: bool)
    | TimerExpires
    | TimeoutReconnect(ok: bool, listenerCloses: bool)
    | OnFail(listenerCloses: bool)
    | OnOpen
    | OnClose(normal: bool, listenerCloses: bool)
    | TimeoutPing
    | LoopEnds

  const INITIAL := State(Closed, 0, UNSIGNED_MAX, 5000, 25000, false, false, false, false,
    Net(false, 0, [], 0, 0, false), Idle)

  // ---------------------------------------------------------------------------
  // One step
  // ---------------------------------------------------------------------------

  /** No timer, attempt or connection keeps the loop going. */
  predicate NothingHeld(net: Net) { !net.waiting && net.expired == 0 && net.connecting == 0 && net.live == 0 }

  predicate Enabled(s: State, e: Event) {
    match e
    case ConnectCancels => s.caller == Idle
    case ConnectChecks => s.caller == Cancelled
    case ConnectFinishes => s.caller == JoiningToConnect && !(s.thread && s.net.looping)
    case SyncClose => s.caller == Idle
    case SyncCloseFinishes => s.caller == JoiningToClose && !s.net.looping
    case Close | SetAttempts(_) | SetDelay(_) | SetDelayMax(_) => true
    case CloseInHandler | TimeoutPing => s.net.looping
    case RunTask(_) => s.net.looping && s.net.queue != []
    case TimerExpires => s.net.looping && s.net.waiting
    case TimeoutReconnect(_, _) => s.net.looping && s.net.expired > 0
    case OnFail(_) | OnOpen => s.net.looping && s.net.connecting > 0
    case OnClose(_, _) => s.net.looping && s.net.live > 0
    case LoopEnds => s.net.looping && s.net.queue == [] && NothingHeld(s.net)
  }

  /** m_reconn_timer->cancel() and reset() */
  function TimerCancelled(s: State): State {
    if s.timer then s.(timer := false, net := s.net.(waiting := false)) else s
  }

  function Posted(s: State, task: Task): State { s.(net := s.net.(queue := s.net.queue + [task])) }

  /** close() up to the dispatch of close_impl. */
  function ToClosing(s: State): State { s.(conState := Closing, abort := true) }

  /** close() in the network thread, where dispatch runs close_impl at once. */
  function ClosedInHandler(s: State): State { TimerCancelled(ToClosing(s)) }

  function ConnectImpl(s: State, ok: bool): State {
    if ok then s.(net := s.net.(connecting := s.net.connecting + 1)) else s
  }

  /** A new timer; the old one, if any, is destroyed and does not expire. */
  function TimerArmed(s: State): State { s.(timer := true, net := s.net.(waiting := true)) }

  /** The retry part of on_fail and on_close. */
  function Retried(s: State, listenerCloses: bool): State {
    if s.made < s.attempts && !s.abort then TimerArmed(if listenerCloses then ClosedInHandler(s) else s) else s
  }

  /** ++ on an unsigned */
  function Next(n: unsigned): unsigned { (n + 1) % (UNSIGNED_MAX + 1) }

  function TimedOut(s: State, ok: bool, listenerCloses: bool): State {
    if s.conState != Closed then s
    else
      var t := s.(conState := Opening, made := Next(s.made));
      ConnectImpl(if listenerCloses then ClosedInHandler(t) else t, ok)
  }

  function Failed(s: State, listenerCloses: bool): State {
    if s.conState == Closing then ClosedInHandler(s) else Retried(s.(con := false, conState := Closed), listenerCloses)
  }

  function Connected(s: State): State {
    if s.conState == Closing then ClosedInHandler(s) else s.(conState := Opened, con := true, made := 0)
  }

  function Disconnected(s: State, normal: bool, listenerCloses: bool): State {
    var t := s.(conState := Closed, con := false);
    if normal || s.conState == Closing then t else Retried(t, listenerCloses)
  }

  function ConnectStarted(s: State): State {
    s.(conState := Opening, made := 0, abort := false, thread := true, caller := Idle,
       net := s.net.(queue := s.net.queue + [ConnectTask], looping := true))
  }

  /** What cannot happen changes nothing. */
  function Step(s: State, e: Event): State { if Enabled(s, e) then Move(s, e) else s }

  function Move(s: State, e: Event): State
    requires Enabled(s, e)
  {
    match e
    case ConnectCancels => TimerCancelled(s).(caller := Cancelled)
    case ConnectChecks =>
      s.(caller := if s.thread && s.conState != Closing && s.conState != Closed then Idle else JoiningToConnect)
    case ConnectFinishes => ConnectStarted(s)
    case Close => Posted(ToClosing(s), CloseTask)
    case CloseInHandler => ClosedInHandler(s)
    case SyncClose => Posted(ToClosing(s), CloseTask).(caller := if s.thread then JoiningToClose else Idle)
    case SyncCloseFinishes => s.(thread := false, caller := Idle)
    case SetAttempts(n) => s.(attempts := n)
    case SetDelay(millis) => s.(delay := millis, delayMax := if s.delayMax < millis then millis else s.delayMax)
    case SetDelayMax(millis) => s.(delayMax := millis, delay := if s.delay > millis then millis else s.delay)
    case RunTask(ok) =>
      var t := s.(net := s.net.(queue := s.net.queue[1..]));
      if s.net.queue[0] == ConnectTask then ConnectImpl(t, ok) else TimerCancelled(t)
    case TimerExpires => s.(net := s.net.(waiting := false, expired := s.net.expired + 1))
    case TimeoutReconnect(ok, listenerCloses) =>
      TimedOut(s.(net := s.net.(expired := s.net.expired - 1)), ok, listenerCloses)
    case OnFail(listenerCloses) => Failed(s.(net := s.net.(connecting := s.net.connecting - 1)), listenerCloses)
    case OnOpen => Connected(s.(net := s.net.(connecting := s.net.connecting - 1, live := s.net.live + 1)))
    case OnClose(normal, listenerCloses) =>
      Disconnected(s.(net := s.net.(live := s.net.live - 1)), normal, listenerCloses)
    case TimeoutPing => TimerCancelled(s)
    case LoopEnds => s.(net := s.net.(looping := false))
  }

  // ---------------------------------------------------------------------------
  // The object
  // ---------------------------------------------------------------------------

  class ClientImpl {
    var conState: ConState
    var made: unsigned
    var attempts: unsigned
    var delay: unsigned
    var delayMax: unsigned
    var abort: bool
    var timer: bool
    var con: bool
    var thread: bool
    var net: Net
    var caller: Caller

    constructor ()
      ensures View() == INITIAL
    {
      conState, made, attempts, delay, delayMax := Closed, 0, UNSIGNED_MAX, 5000, 25000;
      abort, timer, con, thread := false, false, false, false;
      net, caller := Net(false, 0, [], 0, 0, false), Idle;
    }

    function View(): State
      reads this
    {
      State(conState, made, attempts, delay, delayMax, abort, timer, con, thread, net, caller)
    }

    method CancelTimer()
      modifies this`timer, this`net
      ensures View() == TimerCancelled(old(View()))
    {
      if timer {
        net := net.(waiting := false);
        timer := false;
      }
    }

    // The user's threads -------------------------------------------------------

    method ConnectCancels()
      requires Enabled(View(), Event.ConnectCancels)
      modifies this
      ensures View() == Move(old(View()), Event.ConnectCancels)
    {
      CancelTimer();
      caller := Cancelled;
    }

    method ConnectChecks()
      requires Enabled(View(), Event.ConnectChecks)
      modifies this
      ensures View() == Move(old(View()), Event.ConnectChecks)
    {
      caller := JoiningToConnect;
      if thread {
        if conState != Closing && conState != Closed {
          caller := Idle;
        }
      }
    }

    method ConnectFinishes()
      modifies this
      ensures View() == ConnectStarted(old(View()))
    {
      conState := Opening;
      made := 0;
      abort := false;
      net := net.(queue := net.queue + [ConnectTask], looping := true);
      thread, caller := true, Idle;
    }

    method Close()
      modifies this
      ensures View() == Move(old(View()), Event.Close)
    {
      conState := Closing;
      abort := true;
      net := net.(queue := net.queue + [CloseTask]);
    }

    method SyncClose()
      requires Enabled(View(), Event.SyncClose)
      modifies this
      ensures View() == Move(old(View()), Event.SyncClose)
    {
      Close();
      if thread {
        caller := JoiningToClose;
      }
    }

    method SyncCloseFinishes()
      requires Enabled(View(), Event.SyncCloseFinishes)
      modifies this
      ensures View() == Move(old(View()), Event.SyncCloseFinishes)
    {
      thread := false;
      caller := Idle;
    }

    method SetReconnectAttempts(n: unsigned)
      modifies this`attempts
      ensures View() == Move(old(View()), SetAttempts(n))
    {
      attempts := n;
    }

    method SetReconnectDelay(millis: unsigned)
      modifies this`delay, this`delayMax
      ensures View() == Move(old(View()), SetDelay(millis))
    {
      delay := millis;
      if delayMax < millis {
        delayMax := millis;
      }
    }

    method SetReconnectDelayMax(millis: unsigned)
      modifies this`delay, this`delayMax
      ensures View() == Move(old(View()), SetDelayMax(millis))
    {
      delayMax := millis;
      if delay > millis {
        delay := millis;
      }
    }

    // Handlers -----------------------------------------------------------------

    method CloseInHandler()
      modifies this`conState, this`abort, this`timer, this`net
      ensures View() == ClosedInHandler(old(View()))
    {
      conState := Closing;
      abort := true;
      CloseImpl();
    }

    /** With a live m_con this also starts the closing handshake, whose end is on_close. */
    method CloseImpl()
      modifies this`timer, this`net
      ensures View() == TimerCancelled(old(View()))
    {
      CancelTimer();
    }

    method RunTask(ok: bool)
      requires Enabled(View(), Event.RunTask(ok))
      modifies this
      ensures View() == Move(old(View()), Event.RunTask(ok))
    {
      var task := net.queue[0];
      net := net.(queue := net.queue[1..]);
      match task {
        case ConnectTask => StartConnecting(ok);
        case CloseTask => CloseImpl();
      }
    }

    /** connect_impl; not ok is a URI or a proxy it refuses. */
    method StartConnecting(ok: bool)
      modifies this`net
      ensures View() == ConnectImpl(old(View()), ok)
    {
      if ok {
        net := net.(connecting := net.connecting + 1);
      }
    }

    method TimeoutReconnect(ok: bool, listenerCloses: bool)
      requires net.expired > 0
      modifies this
      ensures View() == TimedOut(old(View()).(net := old(net).(expired := old(net).expired - 1)), ok, listenerCloses)
    {
      hide Next;
      net := net.(expired := net.expired - 1);
      if conState == Closed {
        conState := Opening;
        made := Next(made);
        if listenerCloses {
          CloseInHandler();
        }
        StartConnecting(ok);
      }
    }

    method Retry(listenerCloses: bool)
      modifies this`conState, this`abort, this`timer, this`net
      ensures View() == Retried(old(View()), listenerCloses)
    {
      if made < attempts && !abort {
        if listenerCloses {
          CloseInHandler();
        }
        timer := true;
        net := net.(waiting := true);
      }
    }

    method OnFail(listenerCloses: bool)
      requires net.connecting > 0
      modifies this
      ensures View() == Failed(old(View()).(net := old(net).(connecting := old(net).connecting - 1)), listenerCloses)
      ensures old(conState) != Closing ==>
        (net.waiting <==> old(net.waiting) || (old(made) < old(attempts) && !old(abort)))
    {
      net := net.(connecting := net.connecting - 1);
      if conState == Closing {
        CloseInHandler();
        return;
      }
      con := false;
      conState := Closed;
      Retry(listenerCloses);
    }

    method OnOpen()
      requires net.connecting > 0
      modifies this
      ensures View() == Connected(old(View()).(
        net := old(net).(connecting := old(net).connecting - 1, live := old(net).live + 1)))
    {
      net := net.(connecting := net.connecting - 1, live := net.live + 1);
      if conState == Closing {
        CloseInHandler();
        return;
      }
      conState := Opened;
      con := true;
      made := 0;
    }

    method OnClose(normal: bool, listenerCloses: bool)
      requires net.live > 0
      modifies this
      ensures View() == Disconnected(old(View()).(net := old(net).(live := old(net).live - 1)), normal, listenerCloses)
      ensures net.waiting <==>
        old(net.waiting) || (!normal && old(conState) != Closing && old(made) < old(attempts) && !old(abort))
    {
      net := net.(live := net.live - 1);
      var was := conState;
      conState := Closed;
      con := false;
      if !(normal || was == Closing) {
        Retry(listenerCloses);
      }
    }

    method TimeoutPing()
      requires Enabled(View(), Event.TimeoutPing)
      modifies this
      ensures View() == Move(old(View()), Event.TimeoutPing)
    {
      CloseImpl();
    }

    method NextDelay() returns (millis: unsigned)
      ensures millis == Delay(View()) && millis <= delayMax
      ensures delay <= delayMax ==> delay <= millis
    {
      var n := if made < 32 then made else 32;
      DelayAtMost(View());
      if delay <= delayMax {
        DelayIsBetween(View());
      }
      var grown := Grown(delay, n);
      millis := (if grown < delayMax as real then grown else delayMax as real).Floor;
    }
  }

  // ---------------------------------------------------------------------------
  // Backoff
  // ---------------------------------------------------------------------------

  /** 1.5 to the power of n */
  function Growth(n: nat): real { if n == 0 then 1.0 else 1.5 * Growth(n - 1) }

  function Exponent(s: State): nat { if s.made < 32 then s.made else 32 }

  /** next_delay() without the rounding of doubles. */
  function Delay(s: State): int { Capped(Grown(s.delay, Exponent(s)), s.delayMax as real) }

  function Grown(delay: nat, n: nat): real { delay as real * Growth(n) }

  lemma {:induction false} GrowthIsMonotone(m: nat, n: nat)
    requires m <= n
    ensures 1.0 <= Growth(m) <= Growth(n)
    decreases m + n
  {
    if m > 0 {
      GrowthIsMonotone(m - 1, n - 1);
    } else if n > 0 {
      GrowthIsMonotone(0, n - 1);
    }
  }

  /** The floor of the smaller of two numbers. */
  function Capped(a: real, most: real): int { (if a < most then a else most).Floor }

  lemma Scaled(d: real, a: real, b: real, most: real)
    requires 0.0 <= d && a <= b
    ensures d * a <= d * b && Capped(d * a, most) <= Capped(d * b, most)
  {
    assert d * (b - a) >= 0.0;
    assert d * (b - a) == d * b - d * a;
  }

  lemma DelayAtMost(s: State)
    ensures 0 <= Delay(s) <= s.delayMax
  {
    GrownGrows(s.delay, 0, Exponent(s), s.delayMax as real);
    assert Grown(s.delay, 0) == s.delay as real;
  }

  lemma DelayIsBetween(s: State)
    requires s.delay <= s.delayMax
    ensures s.delay <= Delay(s) <= s.delayMax
  {
    var d, most := s.delay as real, s.delayMax as real;
    GrownGrows(s.delay, 0, Exponent(s), most);
    assert Grown(s.delay, 0) == d && Capped(d, most) == s.delay;
  }

  lemma GrownGrows(delay: nat, m: nat, n: nat, most: real)
    requires m <= n
    ensures Capped(Grown(delay, m), most) <= Capped(Grown(delay, n), most)
  {
    GrowthIsMonotone(m, n);
    hide Growth, Capped;
    Scaled(delay as real, Growth(m), Growth(n), most);
  }

  lemma ExponentGrows(s: State, t: State)
    requires s.made <= t.made
    ensures Exponent(s) <= Exponent(t)
  {
  }

  lemma DelayGrows(s: State, t: State)
    requires s.delay == t.delay && s.delayMax == t.delayMax && s.made <= t.made
    ensures Delay(s) <= Delay(t)
  {
    hide Growth, Capped, Exponent, Grown;
    ExponentGrows(s, t);
    GrownGrows(s.delay, Exponent(s), Exponent(t), s.delayMax as real);
  }

  /** b to the power of n */
  function Power(b: nat, n: nat): nat { if n == 0 then 1 else b * Power(b, n - 1) }

  lemma {:induction false} GrowthIsPower(n: nat)
    ensures Growth(n) * Power(2, n) as real == Power(3, n) as real && Power(2, n) > 0
  {
    if n > 0 {
      GrowthIsPower(n - 1);
      var g, two, three := Growth(n - 1), Power(2, n - 1) as real, Power(3, n - 1) as real;
      assert (1.5 * g) * (2.0 * two) == 3.0 * (g * two);
      assert Power(2, n) as real == 2.0 * two && Power(3, n) as real == 3.0 * three;
    }
  }

  lemma ScaledIff(a: real, b: real, c: real)
    requires c > 0.0
    ensures a <= b <==> a * c <= b * c
  {
  }

  lemma GrownIff(millis: int, delay: nat, g: real, two: nat, three: nat)
    requires two > 0 && g * two as real == three as real
    ensures millis as real <= delay as real * g <==> millis * two <= delay * three
  {
    ScaledIff(millis as real, delay as real * g, two as real);
    Regrouped(delay as real, g, two as real);
    assert delay as real * three as real == (delay * three) as real;
    assert millis as real * two as real == (millis * two) as real;
  }

  lemma Regrouped(a: real, b: real, c: real)
    ensures (a * b) * c == a * (b * c)
  {
  }

  /**
   The wait is the largest number of milliseconds up to the delay times three halves per reconnect
   and the maximum.
   */
  lemma DelayIff(s: State, millis: int)
    ensures var n := if s.made < 32 then s.made else 32;
      millis <= Delay(s) <==> millis * Power(2, n) <= s.delay * Power(3, n) && millis <= s.delayMax
  {
    var n := Exponent(s);
    GrowthIsPower(n);
    GrownIff(millis, s.delay, Growth(n), Power(2, n), Power(3, n));
    hide Growth, Power;
  }

  /** With the settings of a new client it grows by halves and reaches its maximum with the fourth reconnect. */
  lemma DefaultDelays(s: State)
    requires s.delay == 5000 && s.delayMax == 25000
    ensures s.made == 0 ==> Delay(s) == 5000
    ensures s.made == 1 ==> Delay(s) == 7500
    ensures s.made == 2 ==> Delay(s) == 11250
    ensures s.made == 3 ==> Delay(s) == 16875
    ensures s.made >= 4 ==> Delay(s) == 25000
  {
    assert Power(2, 0) == Power(3, 0) == 1;
    assert Power(2, 1) == 2 && Power(3, 1) == 3 && Power(2, 2) == 4 && Power(3, 2) == 9;
    assert Power(2, 3) == 8 && Power(3, 3) == 27;
    assert Growth(4) == 5.0625;
    if s.made >= 4 {
      GrownGrows(5000, 4, Exponent(s), 25000.0);
    }
  }

  // ---------------------------------------------------------------------------
  // Runs
  // ---------------------------------------------------------------------------

  function After(s: State, es: seq<Event>): State {
    if es == [] then s else Step(After(s, es[..|es| - 1]), es[|es| - 1])
  }

  function Connects(queue: seq<Task>): nat {
    if queue == [] then 0 else (if queue[0] == ConnectTask then 1 else 0) + Connects(queue[1..])
  }

  predicate TimerOutstanding(s: State) { s.net.waiting || s.net.expired > 0 }

  /** At most one of: a timer that may still call, an attempt about to start, an attempt, a connection. */
  predicate Exclusive(s: State) {
    (if s.net.waiting then 1 else 0) + s.net.expired + Connects(s.net.queue) + s.net.connecting + s.net.live <= 1
  }

  ghost predicate Inv(s: State) {
    && Exclusive(s)
    && (s.net.waiting ==> s.timer)
    && (TimerOutstanding(s) ==> s.conState == Closing || (s.conState == Closed && !s.abort))
    && (TimerOutstanding(s) && s.conState == Closed ==> s.made < UNSIGNED_MAX)
    && (Connects(s.net.queue) > 0 || s.net.connecting > 0 ==> s.conState == Opening || s.conState == Closing)
    && (s.net.live > 0 ==> s.conState == Opened || s.conState == Closing)
    && (s.con ==> s.net.live > 0)
    && (s.net.looping ==> s.thread)
    && (s.conState == Opening || s.conState == Opened ==> s.thread)
    && (s.caller == JoiningToClose ==> s.abort && (s.conState == Closing || s.conState == Closed))
    && (!s.net.looping ==> !TimerOutstanding(s) && Connects(s.net.queue) + s.net.connecting + s.net.live == 0)
    && s.delay <= s.delayMax
  }

  lemma {:induction false} ConnectsAppend(queue: seq<Task>, task: Task)
    ensures Connects(queue + [task]) == Connects(queue) + if task == ConnectTask then 1 else 0
  {
    if queue == [] {
      assert [task][1..] == [];
    } else {
      assert (queue + [task])[1..] == queue[1..] + [task];
      ConnectsAppend(queue[1..], task);
    }
  }

  lemma TimeoutKeeps(s: State, ok: bool, listenerCloses: bool)
    requires Inv(s) && Enabled(s, TimeoutReconnect(ok, listenerCloses))
    ensures Inv(Move(s, TimeoutReconnect(ok, listenerCloses)))
  {
  }

  lemma FailKeeps(s: State, listenerCloses: bool)
    requires Inv(s) && Enabled(s, OnFail(listenerCloses))
    ensures Inv(Move(s, OnFail(listenerCloses)))
  {
    hide Next;
  }

  lemma DisconnectKeeps(s: State, normal: bool, listenerCloses: bool)
    requires Inv(s) && Enabled(s, OnClose(normal, listenerCloses))
    ensures Inv(Move(s, OnClose(normal, listenerCloses)))
  {
    hide Next;
  }

  lemma StepKeeps(s: State, e: Event)
    requires Inv(s)
    ensures Inv(Step(s, e))
  {
    hide Retried, TimedOut, Failed, Disconnected;
    if Enabled(s, e) {
      match e
      case Close | SyncClose => ConnectsAppend(s.net.queue, CloseTask);
      case ConnectFinishes => ConnectsAppend(s.net.queue, ConnectTask);
      case TimeoutReconnect(ok, listenerCloses) => TimeoutKeeps(s, ok, listenerCloses);
      case OnFail(listenerCloses) => FailKeeps(s, listenerCloses);
      case OnClose(normal, listenerCloses) => DisconnectKeeps(s, normal, listenerCloses);
      case _ =>
    }
  }

  /** In every run. */
  lemma {:induction false} AtMostOne(es: seq<Event>)
    ensures Inv(After(INITIAL, es))
  {
    if es != [] {
      hide Step, Inv;
      AtMostOne(es[..|es| - 1]);
      StepKeeps(After(INITIAL, es[..|es| - 1]), es[|es| - 1]);
    } else {
      assert Connects([]) == 0;
    }
  }

  /** The step dispatches a reconnect. */
  predicate Reconnects(s: State, e: Event) { e.TimeoutReconnect? && Enabled(s, e) && s.conState == Closed }

  /** The step calls the listener for a coming reconnect, which may call close(). */
  predicate Announces(s: State, e: Event) {
    && s.made < s.attempts && !s.abort && s.conState != Closing
    && (e.OnFail? || (e.OnClose? && !e.normal))
  }

  /** The step calls close(): from outside, from a listener, or as the handlers do while closing. */
  predicate IsClose(s: State, e: Event) {
    Enabled(s, e) && match e
      case Close | SyncClose | CloseInHandler => true
      case TimeoutReconnect(_, listenerCloses) => listenerCloses && s.conState == Closed
      case OnFail(listenerCloses) => s.conState == Closing || (listenerCloses && Announces(s, e))
      case OnClose(_, listenerCloses) => listenerCloses && Announces(s, e)
      case OnOpen => s.conState == Closing
      case _ => false
  }

  /** connect() gets through, or a connection opens: what the count of reconnects starts over with. */
  predicate StartsOver(s: State, e: Event) {
    Enabled(s, e) && (e.ConnectFinishes? || (e.OnOpen? && s.conState != Closing))
  }

  // ---------------------------------------------------------------------------
  // No reconnect after a close
  // ---------------------------------------------------------------------------

  /** From a close on, as long as no connect() gets through, retries stay aborted. */
  lemma {:induction false} StaysAborted(es: seq<Event>, i: nat)
    requires i < |es| && IsClose(After(INITIAL, es[..i]), es[i])
    requires forall k :: i < k < |es| ==> !es[k].ConnectFinishes?
    ensures After(INITIAL, es).abort
  {
    hide After, Step;
    var p, e := es[..|es| - 1], es[|es| - 1];
    assert es == p + [e];
    AfterSnoc(INITIAL, p, e);
    if i == |es| - 1 {
      CloseAborts(After(INITIAL, p), e);
    } else {
      assert p[..i] == es[..i];
      StaysAborted(p, i);
      AbortKept(After(INITIAL, p), e);
    }
  }

  lemma CloseAborts(s: State, e: Event)
    requires IsClose(s, e)
    ensures Step(s, e).abort
  {
  }

  lemma AbortKept(s: State, e: Event)
    requires s.abort && !e.ConnectFinishes?
    ensures Step(s, e).abort
  {
    hide Next;
  }

  /**
   After close() or sync_close(), wherever it is called from, no reconnect is dispatched until a
   connect() gets through.
   */
  lemma {:induction false} NoReconnectAfterClose(es: seq<Event>, i: nat, j: nat)
    requires i < j < |es| && IsClose(After(INITIAL, es[..i]), es[i])
    requires forall k :: i < k < j ==> !es[k].ConnectFinishes?
    ensures !Reconnects(After(INITIAL, es[..j]), es[j])
  {
    assert es[..j][..i] == es[..i];
    StaysAborted(es[..j], i);
    AtMostOne(es[..j]);
  }

  // ---------------------------------------------------------------------------
  // The number of reconnects
  // ---------------------------------------------------------------------------

  /** The reconnects in a run since the last connect() or successful open, counted one by one. */
  function ReconnectsIn(es: seq<Event>): nat {
    if es == [] then 0
    else
      var s, e := After(INITIAL, es[..|es| - 1]), es[|es| - 1];
      if StartsOver(s, e) then 0
      else ReconnectsIn(es[..|es| - 1]) + if Reconnects(s, e) then 1 else 0
  }

  /** m_reconn_made is that number; it never wraps around. */
  lemma {:induction false} MadeIsReconnects(es: seq<Event>)
    ensures After(INITIAL, es).made == ReconnectsIn(es)
  {
    if es != [] {
      var p, e := es[..|es| - 1], es[|es| - 1];
      MadeIsReconnects(p);
      AtMostOne(p);
      MadeMoves(After(INITIAL, p), e);
      hide Step, Inv, Reconnects, StartsOver;
    }
  }

  lemma MadeMoves(s: State, e: Event)
    requires Inv(s)
    ensures Step(s, e).made == if StartsOver(s, e) then 0 else if Reconnects(s, e) then s.made + 1 else s.made
  {
  }

  /** Reconnects a timer has already been set for. */
  function Pending(s: State): nat { if TimerOutstanding(s) && s.conState == Closed then 1 else 0 }

  predicate Within(s: State) { s.made + Pending(s) <= s.attempts }

  lemma WithinKept(s: State, e: Event)
    requires Inv(s) && Within(s)
    requires e.SetAttempts? ==> s.made + Pending(s) <= e.n
    ensures Within(Step(s, e))
    ensures !e.SetAttempts? ==> Step(s, e).attempts == s.attempts
  {
    hide Connects;
  }

  /** As long as the limit is not lowered under what was made and what is pending, it is kept. */
  lemma {:induction false} AttemptsAreLimited(es: seq<Event>)
    requires forall k :: 0 <= k < |es| && es[k].SetAttempts? ==>
      After(INITIAL, es[..k]).made + Pending(After(INITIAL, es[..k])) <= es[k].n
    ensures Within(After(INITIAL, es)) && ReconnectsIn(es) <= After(INITIAL, es).attempts
  {
    MadeIsReconnects(es);
    if es != [] {
      var p, e := es[..|es| - 1], es[|es| - 1];
      forall k | 0 <= k < |p| && p[k].SetAttempts?
        ensures After(INITIAL, p[..k]).made + Pending(After(INITIAL, p[..k])) <= p[k].n
      {
        assert p[..k] == es[..k];
      }
      AttemptsAreLimited(p);
      AtMostOne(p);
      WithinKept(After(INITIAL, p), e);
    }
  }

  /** Whatever happens from `s` on, without another change of the limit, keeps to it. */
  ghost predicate KeepsTo(s: State, limit: nat) {
    forall es: seq<Event> :: (forall k :: 0 <= k < |es| ==> !es[k].SetAttempts?) ==> After(s, es).made <= limit
  }

  lemma {:induction false} WithinKeepsTo(s: State, es: seq<Event>)
    requires Inv(s) && Within(s) && forall k :: 0 <= k < |es| ==> !es[k].SetAttempts?
    ensures Inv(After(s, es)) && Within(After(s, es)) && After(s, es).attempts == s.attempts
  {
    if es != [] {
      hide Inv, Within, Step;
      var p, e := es[..|es| - 1], es[|es| - 1];
      WithinKeepsTo(s, p);
      StepKeeps(After(s, p), e);
      WithinKept(After(s, p), e);
    }
  }

  /** The pending reconnect can always be made. */
  lemma PendingIsMade(s: State) returns (es: seq<Event>)
    requires Inv(s)
    ensures (forall k :: 0 <= k < |es| ==> !es[k].SetAttempts?) && After(s, es).made == s.made + Pending(s)
  {
    if Pending(s) == 0 {
      es := [];
    } else if s.net.expired > 0 {
      es := [TimeoutReconnect(false, false)];
      ReconnectsNow(s);
      hide Step, Inv;
      RunsOfTwo(s, TimerExpires, es[0]);
    } else {
      es := [TimerExpires, TimeoutReconnect(false, false)];
      ExpiresNow(s);
      ReconnectsNow(Step(s, TimerExpires));
      hide Step, Inv;
      RunsOfTwo(s, es[0], es[1]);
    }
  }

  lemma RunsOfTwo(s: State, e: Event, f: Event)
    ensures After(s, [f]) == Step(s, f) && After(s, [e, f]) == Step(Step(s, e), f)
  {
    hide Step;
    assert [e, f][..1] == [e] && [e][..0] == [] && [f][..0] == [];
  }

  lemma ExpiresNow(s: State)
    requires Inv(s) && s.net.waiting && s.conState == Closed
    ensures var t := Step(s, TimerExpires); Inv(t) && t.net.expired > 0 && t.conState == Closed && t.made == s.made
  {
    StepKeeps(s, TimerExpires);
    hide Inv;
    assert s.net.looping;
  }

  lemma ReconnectsNow(s: State)
    requires Inv(s) && s.net.expired > 0 && s.conState == Closed
    ensures Step(s, TimeoutReconnect(false, false)).made == s.made + 1
  {
  }

  lemma AfterSnoc(s: State, es: seq<Event>, e: Event)
    ensures After(s, es + [e]) == Step(After(s, es), e)
  {
    assert (es + [e])[..|es|] == es;
  }

  lemma CoveredIsKept(t: State)
    requires Inv(t) && Within(t)
    ensures KeepsTo(t, t.attempts)
  {
    hide After, Inv;
    forall es: seq<Event> | forall k :: 0 <= k < |es| ==> !es[k].SetAttempts? ensures After(t, es).made <= t.attempts {
      WithinKeepsTo(t, es);
    }
  }

  lemma UncoveredIsNotKept(t: State)
    requires Inv(t) && !Within(t)
    ensures !KeepsTo(t, t.attempts)
  {
    hide After, Inv;
    var es := PendingIsMade(t);
    assert After(t, es).made > t.attempts;
  }

  lemma LimitSet(s: State, n: unsigned)
    ensures var t := Step(s, SetAttempts(n)); t.attempts == n && (Within(t) <==> s.made + Pending(s) <= n)
  {
  }

  /** Changing the limit in the middle of a run is safe exactly when it covers what was made and what is pending. */
  lemma {:induction false} NewLimitIsKeptIff(es: seq<Event>, n: unsigned)
    ensures var s := After(INITIAL, es);
      KeepsTo(Step(s, SetAttempts(n)), n) <==> s.made + Pending(s) <= n
  {
    hide After, Step, Inv, Within, KeepsTo;
    var s := After(INITIAL, es);
    AtMostOne(es);
    StepKeeps(s, SetAttempts(n));
    LimitSet(s, n);
    if s.made + Pending(s) <= n {
      CoveredIsKept(Step(s, SetAttempts(n)));
    } else {
      UncoveredIsNotKept(Step(s, SetAttempts(n)));
    }
  }

  // ---------------------------------------------------------------------------
  // Closing in the middle of an attempt
  // ---------------------------------------------------------------------------

  /** The step starts a connection attempt and leaves the client closing. */
  predicate DialsWhileClosing(s: State, e: Event) {
    Step(s, e).net.connecting > s.net.connecting && Step(s, e).conState == Closing
  }

  /**
   close() comes too late for an attempt exactly in two cases: the reconnecting listener calls it
   just before the attempt it announces, or it was called before the network thread got round to
   the attempt of a connect().
   */
  lemma DialsWhileClosingIff(s: State, e: Event)
    ensures DialsWhileClosing(s, e) <==>
      (Enabled(s, e) &&
        ((e == TimeoutReconnect(true, true) && s.conState == Closed) ||
         (e == RunTask(true) && s.net.queue[0] == ConnectTask && s.conState == Closing)))
  {
    hide Next;
  }

  const CONNECTING := State(Opening, 0, UNSIGNED_MAX, 5000, 25000, false, false, false, true,
    Net(false, 0, [ConnectTask], 0, 0, true), Idle)

  const WAITING := State(Closed, 0, UNSIGNED_MAX, 5000, 25000, false, true, false, true,
    Net(true, 0, [], 0, 0, true), Idle)

  lemma FirstConnects()
    ensures Step(Step(Step(INITIAL, ConnectCancels), ConnectChecks), ConnectFinishes) == CONNECTING
  {
    hide Retried;
  }

  lemma FirstFails()
    ensures Step(Step(CONNECTING, RunTask(true)), OnFail(false)) == WAITING
  {
    hide ClosedInHandler;
  }

  lemma Then(es: seq<Event>, s: State, e: Event) returns (es': seq<Event>, s': State)
    requires s == After(INITIAL, es)
    ensures es' == es + [e] && s' == Step(s, e) == After(INITIAL, es')
  {
    es', s' := es + [e], Step(s, e);
    AfterSnoc(INITIAL, es, e);
  }

  lemma ConnectedOnce() returns (es: seq<Event>)
    ensures After(INITIAL, es) == CONNECTING
  {
    hide Step;
    var s := INITIAL;
    FirstConnects();
    es, s := Then([], s, ConnectCancels);
    es, s := Then(es, s, ConnectChecks);
    es, s := Then(es, s, ConnectFinishes);
  }

  /** Both happen: close() from the reconnecting listener, and close() right after connect(). */
  lemma DialsWhileClosingHappens()
    ensures exists es: seq<Event> :: DialsWhileClosing(After(INITIAL, es), TimeoutReconnect(true, true))
    ensures exists es: seq<Event> :: DialsWhileClosing(After(INITIAL, es), RunTask(true))
  {
    hide After, Step, DialsWhileClosing;
    var start := ConnectedOnce();
    FirstFails();
    var es, s := Then(start, CONNECTING, RunTask(true));
    es, s := Then(es, s, OnFail(false));
    es, s := Then(es, s, TimerExpires);
    ExpiredDials();
    assert DialsWhileClosing(After(INITIAL, es), TimeoutReconnect(true, true));
    es, s := Then(start, CONNECTING, Event.Close);
    ClosedDials();
    assert DialsWhileClosing(After(INITIAL, es), RunTask(true));
  }

  lemma ExpiredDials()
    ensures DialsWhileClosing(Step(WAITING, TimerExpires), TimeoutReconnect(true, true))
  {
    hide Retried;
  }

  lemma ClosedDials()
    ensures DialsWhileClosing(Step(CONNECTING, Event.Close), RunTask(true))
  {
    hide Retried;
  }

  /** A connection without an m_con that close() could close. */
  predicate Orphaned(s: State) { s.net.live > 0 && !s.con }

  predicate OpensWhileClosing(s: State, e: Event) { e == OnOpen && Enabled(s, e) && s.conState == Closing }

  predicate Disconnects(s: State, e: Event) { e.OnClose? && Enabled(s, e) }

  /** One step makes an orphan exactly when a connection opens while the client is closing. */
  lemma BecomesOrphanedIff(s: State, e: Event)
    requires Inv(s) && !Orphaned(s)
    ensures Orphaned(Step(s, e)) <==> OpensWhileClosing(s, e)
  {
    hide Next, Connects;
  }

  /** An orphan stays, alone and with the client closing, until the other end closes it. */
  lemma StaysOrphanedIff(s: State, e: Event)
    requires Inv(s) && Orphaned(s) && s.conState == Closing
    ensures Orphaned(Step(s, e)) <==> !Disconnects(s, e)
    ensures !Disconnects(s, e) ==> Step(s, e).conState == Closing
  {
    hide Next;
  }

  /** Some step of the run was of the first kind, and none since of the second. */
  ghost predicate Since(es: seq<Event>, begins: (State, Event) -> bool, ends: (State, Event) -> bool) {
    exists i :: 0 <= i < |es| && begins(After(INITIAL, es[..i]), es[i]) &&
      forall k :: i < k < |es| ==> !ends(After(INITIAL, es[..k]), es[k])
  }

  lemma SinceSnoc(es: seq<Event>, begins: (State, Event) -> bool, ends: (State, Event) -> bool)
    requires es != []
    ensures var n := |es| - 1;
      var s := After(INITIAL, es[..n]);
      Since(es, begins, ends) <==> (begins(s, es[n]) || (Since(es[..n], begins, ends) && !ends(s, es[n])))
  {
    var n := |es| - 1;
    if Since(es, begins, ends) {
      SinceShorter(es, begins, ends);
    }
    if Since(es[..n], begins, ends) && !ends(After(INITIAL, es[..n]), es[n]) {
      SinceLonger(es, begins, ends);
    }
    hide After;
  }

  lemma SinceShorter(es: seq<Event>, begins: (State, Event) -> bool, ends: (State, Event) -> bool)
    requires es != [] && Since(es, begins, ends)
    ensures var n := |es| - 1;
      begins(After(INITIAL, es[..n]), es[n]) || (Since(es[..n], begins, ends) && !ends(After(INITIAL, es[..n]), es[n]))
  {
    hide After;
    var n := |es| - 1;
    var p := es[..n];
    assert forall k :: 0 <= k < n ==> p[..k] == es[..k] && p[k] == es[k];
    var i :| 0 <= i < |es| && begins(After(INITIAL, es[..i]), es[i]) &&
      forall k :: i < k < |es| ==> !ends(After(INITIAL, es[..k]), es[k]);
    if i < n {
      assert begins(After(INITIAL, p[..i]), p[i]);
      assert !ends(After(INITIAL, es[..n]), es[n]);
    }
  }

  lemma SinceLonger(es: seq<Event>, begins: (State, Event) -> bool, ends: (State, Event) -> bool)
    requires es != []
    requires var n := |es| - 1; Since(es[..n], begins, ends) && !ends(After(INITIAL, es[..n]), es[n])
    ensures Since(es, begins, ends)
  {
    hide After;
    var n := |es| - 1;
    var p := es[..n];
    assert forall k :: 0 <= k < n ==> p[..k] == es[..k] && p[k] == es[k];
    var i :| 0 <= i < |p| && begins(After(INITIAL, p[..i]), p[i]) &&
      forall k :: i < k < |p| ==> !ends(After(INITIAL, p[..k]), p[k]);
    assert begins(After(INITIAL, es[..i]), es[i]);
  }

  /**
   In every run there is a connection that the client cannot close exactly when one has opened
   while the client was closing and not been closed from the other end since. It is then the only
   one, and the client stays closing.
   */
  lemma {:induction false} OrphanedIff(es: seq<Event>)
    ensures var s := After(INITIAL, es);
      && (Orphaned(s) <==> Since(es, OpensWhileClosing, Disconnects))
      && (Orphaned(s) ==> s.net.live == 1 && s.conState == Closing)
  {
    hide Step, Inv, Orphaned, Since, OpensWhileClosing, Disconnects;
    if es == [] {
      NothingYet();
    } else {
      var p, e := es[..|es| - 1], es[|es| - 1];
      var s := After(INITIAL, p);
      OrphanedIff(p);
      SinceSnoc(es, OpensWhileClosing, Disconnects);
      AtMostOne(p);
      AtMostOne(es);
      OpensOrNot(s, e);
      if Orphaned(s) {
        StaysOrphanedIff(s, e);
      } else {
        BecomesOrphanedIff(s, e);
      }
      if Orphaned(Step(s, e)) {
        OrphanIsAlone(Step(s, e));
      }
    }
  }

  lemma NothingYet()
    ensures !Orphaned(INITIAL) && !Since([], OpensWhileClosing, Disconnects)
    ensures !Stuck(INITIAL) && !Since([], Refused, Frees)
  {
  }

  lemma OpensOrNot(s: State, e: Event)
    requires Inv(s)
    ensures OpensWhileClosing(s, e) ==> !Orphaned(s) && Step(s, e).conState == Closing
  {
  }

  lemma OrphanIsAlone(s: State)
    requires Inv(s) && Orphaned(s)
    ensures s.net.live == 1
  {
  }

  /** So it outlasts everything but its own end. */
  lemma {:induction false} OpenedWhileClosingStays(es: seq<Event>, later: seq<Event>)
    requires OpensWhileClosing(After(INITIAL, es), OnOpen)
    requires forall k :: 0 <= k < |later| ==> !later[k].OnClose?
    ensures var t := After(INITIAL, es + [OnOpen] + later); t.net.live == 1 && !t.con && t.conState == Closing
  {
    hide After, Since, OpensWhileClosing;
    var run := es + [OnOpen] + later;
    OrphanedIff(run);
    assert run[..|es|] == es && run[|es|] == OnOpen;
    assert Since(run, OpensWhileClosing, Disconnects) by {
      SinceHere(run, |es|);
    }
  }

  lemma SinceHere(es: seq<Event>, i: nat)
    requires i < |es| && OpensWhileClosing(After(INITIAL, es[..i]), es[i])
    requires forall k :: i < k < |es| ==> !es[k].OnClose?
    ensures Since(es, OpensWhileClosing, Disconnects)
  {
    hide After, OpensWhileClosing;
  }

  // ---------------------------------------------------------------------------
  // When connect() gets through
  // ---------------------------------------------------------------------------

  /** The client says it is opening, and nothing is pending that would ever come of it. */
  predicate Stuck(s: State) {
    s.conState == Opening && NothingHeld(s.net) && Connects(s.net.queue) == 0
  }

  /** connect_impl refuses the URI or the proxy of an attempt. */
  predicate Refused(s: State, e: Event) {
    Enabled(s, e) &&
    ((e == RunTask(false) && s.net.queue[0] == ConnectTask && s.conState == Opening) ||
     (e.TimeoutReconnect? && !e.ok && !e.listenerCloses && s.conState == Closed))
  }

  /** close(), or a connect() that was waiting for the loop all the time. */
  predicate Frees(s: State, e: Event) { IsClose(s, e) || (e.ConnectFinishes? && Enabled(s, e)) }

  lemma BecomesStuckIff(s: State, e: Event)
    requires Inv(s) && !Stuck(s)
    ensures Stuck(Step(s, e)) <==> Refused(s, e)
  {
    hide Next;
    if e.Close? || e.SyncClose? {
      ConnectsAppend(s.net.queue, CloseTask);
    } else if e.ConnectFinishes? {
      ConnectsAppend(s.net.queue, ConnectTask);
    }
  }

  lemma StaysStuckIff(s: State, e: Event)
    requires Inv(s) && Stuck(s)
    ensures Stuck(Step(s, e)) <==> !Frees(s, e)
    ensures !Refused(s, e)
  {
    hide Next;
    if e.ConnectFinishes? {
      ConnectsAppend(s.net.queue, ConnectTask);
    }
  }

  /**
   In every run the client is opening with nothing pending exactly when an attempt was refused
   and neither close() nor an earlier connect() has come since.
   */
  lemma {:induction false} StuckIff(es: seq<Event>)
    ensures Stuck(After(INITIAL, es)) <==> Since(es, Refused, Frees)
  {
    hide Step, Inv, Stuck, Since, Refused, Frees;
    if es == [] {
      NothingYet();
    } else {
      var p, e := es[..|es| - 1], es[|es| - 1];
      var s := After(INITIAL, p);
      StuckIff(p);
      SinceSnoc(es, Refused, Frees);
      AtMostOne(p);
      if Stuck(s) {
        StaysStuckIff(s, e);
      } else {
        BecomesStuckIff(s, e);
      }
    }
  }

  /** Handlers and the loop itself, with listeners that do not close. */
  predicate IsNetwork(e: Event) {
    match e
    case RunTask(_) | TimerExpires | OnOpen | TimeoutPing | LoopEnds => true
    case TimeoutReconnect(_, closes) => !closes
    case OnFail(closes) => !closes
    case OnClose(_, closes) => !closes
    case _ => false
  }

  ghost predicate Network(es: seq<Event>) { forall k :: 0 <= k < |es| ==> IsNetwork(es[k]) }

  lemma NetworkKeepsCaller(s: State, e: Event)
    requires IsNetwork(e)
    ensures Step(s, e).caller == s.caller
  {
    hide Next, Connects;
    if e.RunTask? || e.OnFail? || e.OnClose? {
      hide TimedOut, Connected;
    }
  }

  lemma {:induction false} AfterCons(s: State, e: Event, es: seq<Event>)
    ensures After(s, [e] + es) == After(Step(s, e), es)
  {
    hide Step;
    if es == [] {
      assert [e] + es == [e] && [e][..0] == [];
    } else {
      var n := |es| - 1;
      assert ([e] + es)[..n + 1] == [e] + es[..n];
      AfterCons(s, e, es[..n]);
    }
  }

  /** How far the loop is from having nothing to do. */
  function Rank(s: State): nat { 3 * s.net.connecting + (if s.net.waiting then 2 else 0) + s.net.expired + s.net.live }

  /** A step that brings the loop nearer to its end. */
  function Winding(s: State): Event {
    if s.net.queue != [] then RunTask(false)
    else if s.net.connecting > 0 then OnFail(false)
    else if s.net.waiting then TimerExpires
    else if s.net.expired > 0 then TimeoutReconnect(false, false)
    else if s.net.live > 0 then OnClose(true, false)
    else LoopEnds
  }

  lemma WindsDown(s: State)
    requires s.net.looping
    ensures var t := Step(s, Winding(s));
      || !t.net.looping
      || |t.net.queue| < |s.net.queue|
      || (|t.net.queue| == |s.net.queue| && Rank(t) < Rank(s))
  {
    if s.net.queue == [] && s.net.connecting > 0 {
      FailWinds(s);
    } else if s.net.queue == [] && !s.net.waiting && s.net.expired > 0 {
      TimeoutWinds(s);
    }
    hide Move, Rank;
    if s.net.queue == [] && s.net.connecting == 0 && (s.net.waiting || s.net.expired == 0) {
      OthersWind(s);
    } else if s.net.queue != [] {
      TaskWinds(s);
    }
  }

  lemma TaskWinds(s: State)
    requires s.net.looping && s.net.queue != []
    ensures |Step(s, RunTask(false)).net.queue| < |s.net.queue|
  {
  }

  lemma FailWinds(s: State)
    requires s.net.looping && s.net.connecting > 0
    ensures var t := Step(s, OnFail(false)); t.net.queue == s.net.queue && Rank(t) < Rank(s)
  {
  }

  lemma TimeoutWinds(s: State)
    requires s.net.looping && s.net.expired > 0
    ensures var t := Step(s, TimeoutReconnect(false, false)); t.net.queue == s.net.queue && Rank(t) < Rank(s)
  {
    hide Next;
  }

  lemma OthersWind(s: State)
    requires s.net.looping && s.net.queue == [] && s.net.connecting == 0 && (s.net.waiting || s.net.expired == 0)
    ensures var t := Step(s, Winding(s)); t.net.queue == [] && (!t.net.looping || Rank(t) < Rank(s))
  {
    hide TimedOut, Failed, Retried, Connected;
  }

  /** The loop can always come to its end: no join waits for something that cannot happen. */
  lemma {:induction false} LoopCanEnd(s: State) returns (es: seq<Event>)
    requires Inv(s)
    ensures Network(es) && !After(s, es).net.looping && After(s, es).caller == s.caller
    decreases s.net.looping, |s.net.queue|, Rank(s)
  {
    if !s.net.looping {
      es := [];
    } else {
      var e := Winding(s);
      WindsDown(s);
      StepKeeps(s, e);
      NetworkKeepsCaller(s, e);
      hide Step, Inv, Rank, Winding, After;
      var later := LoopCanEnd(Step(s, e));
      es := [e] + later;
      AfterCons(s, e, later);
    }
  }

  lemma {:induction false} NetworkNeverCalls(s: State, es: seq<Event>)
    requires Network(es)
    ensures After(s, es).caller == s.caller
  {
    hide Step, IsNetwork;
    if es != [] {
      NetworkNeverCalls(s, es[..|es| - 1]);
      NetworkKeepsCaller(After(s, es[..|es| - 1]), es[|es| - 1]);
    }
  }

  /** This connect() can come to its last part, the network's part taking its course. */
  ghost predicate GetsThrough(s: State) {
    exists es :: Network(es) && Enabled(After(s, es), ConnectFinishes)
  }

  /**
   A connect() gets through exactly when it finds the client closing or closed; otherwise it
   returns without doing anything.
   */
  lemma {:induction false} ConnectGetsThroughIff(es: seq<Event>)
    requires After(INITIAL, es).caller == Cancelled
    ensures var s := After(INITIAL, es);
      GetsThrough(Step(s, ConnectChecks)) <==> s.conState == Closing || s.conState == Closed
  {
    var s := After(INITIAL, es);
    var t := Step(s, ConnectChecks);
    AtMostOne(es);
    StepKeeps(s, ConnectChecks);
    CheckDecides(s);
    if t.caller == JoiningToConnect {
      var later := LoopCanEnd(t);
      assert Enabled(After(t, later), ConnectFinishes);
    } else {
      forall later: seq<Event> | Network(later) ensures !Enabled(After(t, later), ConnectFinishes) {
        NetworkNeverCalls(t, later);
      }
    }
  }

  lemma CheckDecides(s: State)
    requires Inv(s) && s.caller == Cancelled
    ensures var t := Step(s, ConnectChecks);
      if s.conState == Closing || s.conState == Closed then t.caller == JoiningToConnect else t.caller == Idle
  {
  }

  // ---------------------------------------------------------------------------
  // What each step does
  // ---------------------------------------------------------------------------

  /** A connection that goes down gets a reconnect timer exactly when it was not closed and reconnects are left. */
  lemma LostConnectionRetriesIff(s: State, normal: bool, listenerCloses: bool)
    requires Inv(s) && Enabled(s, OnClose(normal, listenerCloses))
    ensures var t := Step(s, OnClose(normal, listenerCloses));
      && (t.net.waiting <==> !normal && s.conState != Closing && s.made < s.attempts && !s.abort)
      && t.net.live == s.net.live - 1 && !t.con
      && t.conState == if t.net.waiting && listenerCloses then Closing else Closed
  {
    hide Next, Connects;
  }

  /** So does an attempt that fails. */
  lemma FailedAttemptRetriesIff(s: State, listenerCloses: bool)
    requires Inv(s) && Enabled(s, OnFail(listenerCloses))
    ensures var t := Step(s, OnFail(listenerCloses));
      && (t.net.waiting <==> s.conState != Closing && s.made < s.attempts && !s.abort)
      && t.net.connecting == s.net.connecting - 1 && !t.con
      && t.conState == if s.conState == Closing || (t.net.waiting && listenerCloses) then Closing else Closed
  {
    hide Next, Connects;
  }

  /** A retry is announced, and its timer set. */
  predicate Arms(s: State, e: Event) { Enabled(s, e) && Announces(s, e) }

  /** The timer expires, or connect(), close() or the ping timeout cancels it in time. */
  predicate StopsTimer(s: State, e: Event) {
    Enabled(s, e) && match e
      case TimerExpires | ConnectCancels | CloseInHandler | TimeoutPing => true
      case RunTask(_) => s.net.queue[0] == CloseTask
      case _ => false
  }

  lemma TimerMoves(s: State, e: Event)
    requires Inv(s)
    ensures Step(s, e).net.waiting <==> Arms(s, e) || (s.net.waiting && !StopsTimer(s, e))
  {
    hide Next, Connects;
    if s.net.waiting && s.net.looping {
      NothingElse(s);
    }
  }

  lemma NothingElse(s: State)
    requires Inv(s) && s.net.waiting
    ensures s.net.expired == 0 && s.net.connecting == 0 && s.net.live == 0
  {
  }

  /** The step starts an attempt: the first of a connect(), or a reconnect. */
  predicate Dials(s: State, e: Event) {
    Enabled(s, e) &&
    ((e == RunTask(true) && s.net.queue[0] == ConnectTask) || (e.TimeoutReconnect? && e.ok && s.conState == Closed))
  }

  /** Closing and retrying leave the counts, the queue, the loop and the settings alone. */
  predicate SameCounts(s: State, t: State) {
    && t.net == s.net.(waiting := t.net.waiting)
    && t.thread == s.thread && t.attempts == s.attempts && t.delay == s.delay && t.delayMax == s.delayMax
  }

  lemma ClosingKeepsCounts(s: State, closes: bool)
    ensures SameCounts(s, TimerCancelled(s)) && SameCounts(s, ClosedInHandler(s))
    ensures SameCounts(s, Retried(s, closes))
  {
  }

  lemma HandlersKeepCounts(s: State, normal: bool, closes: bool)
    ensures SameCounts(s, Failed(s, closes)) && SameCounts(s, Connected(s))
    ensures SameCounts(s, Disconnected(s, normal, closes))
  {
    forall t: State { ClosingKeepsCounts(t, closes); }
    hide TimerCancelled, ClosedInHandler, Retried;
  }

  lemma TimeoutKeepsCounts(s: State, ok: bool, closes: bool)
    ensures var t := TimedOut(s, ok, closes);
      && t.net == s.net.(waiting := t.net.waiting,
                         connecting := s.net.connecting + if ok && s.conState == Closed then 1 else 0)
      && t.thread == s.thread && t.attempts == s.attempts && t.delay == s.delay && t.delayMax == s.delayMax
  {
    forall t: State { ClosingKeepsCounts(t, closes); }
    hide TimerCancelled, ClosedInHandler, Next;
  }

  lemma HandlersMove(s: State, e: Event)
    requires Enabled(s, e) && (e.OnFail? || e.OnClose? || e.OnOpen?)
    ensures var t := Step(s, e);
      && SameCounts(t, s.(net := t.net)) && t.net.queue == s.net.queue && t.net.looping == s.net.looping
      && t.net.expired == s.net.expired
      && t.net.connecting == s.net.connecting - (if e.OnClose? then 0 else 1)
      && t.net.live == s.net.live + (if e.OnOpen? then 1 else 0) - (if e.OnClose? then 1 else 0)
  {
    match e
    case OnFail(closes) =>
      HandlersKeepCounts(s.(net := s.net.(connecting := s.net.connecting - 1)), false, closes);
      hide Failed;
    case OnOpen =>
      HandlersKeepCounts(s.(net := s.net.(connecting := s.net.connecting - 1, live := s.net.live + 1)), false, false);
      hide Connected;
    case OnClose(normal, closes) =>
      HandlersKeepCounts(s.(net := s.net.(live := s.net.live - 1)), normal, closes);
      hide Disconnected;
  }

  lemma TimeoutMoves(s: State, e: Event)
    requires Enabled(s, e) && e.TimeoutReconnect?
    ensures var t := Step(s, e);
      && SameCounts(t, s.(net := t.net)) && t.net.queue == s.net.queue && t.net.looping == s.net.looping
      && t.net.expired == s.net.expired - 1 && t.net.live == s.net.live
      && t.net.connecting == s.net.connecting + if Dials(s, e) then 1 else 0
  {
    TimeoutKeepsCounts(s.(net := s.net.(expired := s.net.expired - 1)), e.ok, e.listenerCloses);
    hide TimedOut;
  }

  /** Timers, attempts and connections, counted. */
  lemma CountsMove(s: State, e: Event)
    ensures var net := Step(s, e).net;
      && net.expired == s.net.expired + (if Enabled(s, e) && e.TimerExpires? then 1 else 0)
        - (if Enabled(s, e) && e.TimeoutReconnect? then 1 else 0)
      && net.connecting == s.net.connecting + (if Dials(s, e) then 1 else 0)
        - (if Enabled(s, e) && (e.OnFail? || e.OnOpen?) then 1 else 0)
      && net.live == s.net.live + (if Enabled(s, e) && e.OnOpen? then 1 else 0)
        - (if Enabled(s, e) && e.OnClose? then 1 else 0)
  {
    hide TimedOut, Failed, Connected, Disconnected, Retried;
    if Enabled(s, e) {
      if e.OnFail? || e.OnClose? || e.OnOpen? {
        HandlersMove(s, e);
        hide Step;
      } else if e.TimeoutReconnect? {
        TimeoutMoves(s, e);
        hide Step;
      }
    }
  }

  /** Handlers are posted by connect(), close() and sync_close(), and the oldest is run first. */
  lemma QueueMoves(s: State, e: Event)
    ensures Step(s, e).net.queue ==
      if !Enabled(s, e) then s.net.queue
      else if e.RunTask? then s.net.queue[1..]
      else if e.ConnectFinishes? then s.net.queue + [ConnectTask]
      else if e.Close? || e.SyncClose? then s.net.queue + [CloseTask]
      else s.net.queue
  {
    hide TimedOut, Failed, Connected, Disconnected, Retried;
    if Enabled(s, e) {
      if e.OnFail? || e.OnClose? || e.OnOpen? {
        HandlersMove(s, e);
        hide Step;
      } else if e.TimeoutReconnect? {
        TimeoutMoves(s, e);
        hide Step;
      }
    }
  }

  /** A reconnect is called off by the listener that is told about it. */
  predicate CalledOff(e: Event) { e.TimeoutReconnect? && e.listenerCloses }

  /** A connection goes down, or an attempt fails, with the client not closing. */
  predicate GoesDown(s: State, e: Event) { Enabled(s, e) && (e.OnClose? || (e.OnFail? && s.conState != Closing)) }

  predicate GetsOpened(s: State, e: Event) { Enabled(s, e) && e.OnOpen? && s.conState != Closing }

  predicate LeavesOpened(s: State, e: Event) { IsClose(s, e) || (Enabled(s, e) && (e.OnClose? || e.ConnectFinishes?)) }

  predicate GetsOpening(s: State, e: Event) {
    (Enabled(s, e) && e.ConnectFinishes?) || (Reconnects(s, e) && !CalledOff(e))
  }

  predicate LeavesOpening(s: State, e: Event) { IsClose(s, e) || (Enabled(s, e) && (e.OnOpen? || e.OnFail?)) }

  predicate LeavesClosing(s: State, e: Event) { Enabled(s, e) && (e.OnClose? || e.ConnectFinishes?) }

  predicate LeavesAborted(s: State, e: Event) { Enabled(s, e) && e.ConnectFinishes? }

  lemma OpenedMoves(s: State, e: Event)
    requires Inv(s)
    ensures Step(s, e).conState == Opened <==> GetsOpened(s, e) || (s.conState == Opened && !LeavesOpened(s, e))
  {
    hide Next, Connects;
  }

  lemma ConMoves(s: State, e: Event)
    requires Inv(s)
    ensures Step(s, e).con <==> GetsOpened(s, e) || (s.con && !GoesDown(s, e))
  {
    hide Next, Connects;
  }

  lemma OpeningMoves(s: State, e: Event)
    requires Inv(s)
    ensures Step(s, e).conState == Opening <==> GetsOpening(s, e) || (s.conState == Opening && !LeavesOpening(s, e))
  {
    hide Next, Connects;
  }

  lemma ClosingMoves(s: State, e: Event)
    ensures Step(s, e).conState == Closing <==> IsClose(s, e) || (s.conState == Closing && !LeavesClosing(s, e))
  {
    hide Next, Connects;
  }

  lemma AbortMoves(s: State, e: Event)
    ensures Step(s, e).abort <==> IsClose(s, e) || (s.abort && !LeavesAborted(s, e))
  {
    hide Next, Connects;
  }

  /** What begins and ends with the steps of a run holds when it has begun and not ended since. */
  lemma {:induction false} SinceIff(es: seq<Event>, holds: State -> bool,
                                    begins: (State, Event) -> bool, ends: (State, Event) -> bool)
    requires !holds(INITIAL)
    requires forall s: State, e: Event ::
      Inv(s) ==> (holds(Step(s, e)) <==> begins(s, e) || (holds(s) && !ends(s, e)))
    ensures holds(After(INITIAL, es)) <==> Since(es, begins, ends)
  {
    hide Step, Inv, Since;
    if es == [] {
      NeverBegun(begins, ends);
    } else {
      var p, e := es[..|es| - 1], es[|es| - 1];
      SinceIff(p, holds, begins, ends);
      SinceSnoc(es, begins, ends);
      AtMostOne(p);
    }
  }

  lemma NeverBegun(begins: (State, Event) -> bool, ends: (State, Event) -> bool)
    ensures !Since([], begins, ends)
  {
  }

  /** In every run the reconnect timer runs exactly when one was announced and none stopped it since. */
  lemma {:induction false} WaitsIff(es: seq<Event>)
    ensures After(INITIAL, es).net.waiting <==> Since(es, Arms, StopsTimer)
  {
    hide Step, Inv, Since, Arms, StopsTimer, After;
    forall s: State, e: Event | Inv(s)
      ensures Step(s, e).net.waiting <==> Arms(s, e) || (s.net.waiting && !StopsTimer(s, e))
    {
      TimerMoves(s, e);
    }
    SinceIff(es, (s: State) => s.net.waiting, Arms, StopsTimer);
  }

  /** In every run the client is opened exactly when a connection opened for it and nothing ended that since. */
  lemma {:induction false} OpenedIff(es: seq<Event>)
    ensures After(INITIAL, es).conState == Opened <==> Since(es, GetsOpened, LeavesOpened)
  {
    hide Step, Inv, Since, GetsOpened, LeavesOpened, GoesDown, After;
    forall s: State, e: Event | Inv(s)
      ensures Step(s, e).conState == Opened <==> GetsOpened(s, e) || (s.conState == Opened && !LeavesOpened(s, e))
    {
      OpenedMoves(s, e);
    }
    SinceIff(es, (s: State) => s.conState == Opened, GetsOpened, LeavesOpened);
  }

  /** In every run m_con is set exactly when a connection opened for the client and did not go down since. */
  lemma {:induction false} ConIff(es: seq<Event>)
    ensures After(INITIAL, es).con <==> Since(es, GetsOpened, GoesDown)
  {
    hide Step, Inv, Since, GetsOpened, LeavesOpened, GoesDown, After;
    forall s: State, e: Event | Inv(s) ensures Step(s, e).con <==> GetsOpened(s, e) || (s.con && !GoesDown(s, e)) {
      ConMoves(s, e);
    }
    SinceIff(es, (s: State) => s.con, GetsOpened, GoesDown);
  }

  lemma {:induction false} OpeningIff(es: seq<Event>)
    ensures After(INITIAL, es).conState == Opening <==> Since(es, GetsOpening, LeavesOpening)
  {
    hide Step, Inv, Since, GetsOpening, LeavesOpening, After;
    forall s: State, e: Event | Inv(s)
      ensures Step(s, e).conState == Opening <==> GetsOpening(s, e) || (s.conState == Opening && !LeavesOpening(s, e))
    {
      OpeningMoves(s, e);
    }
    SinceIff(es, (s: State) => s.conState == Opening, GetsOpening, LeavesOpening);
  }

  lemma {:induction false} ClosingIff(es: seq<Event>)
    ensures After(INITIAL, es).conState == Closing <==> Since(es, IsClose, LeavesClosing)
  {
    hide Step, Inv, Since, IsClose, LeavesClosing, LeavesAborted, After;
    forall s: State, e: Event | Inv(s)
      ensures Step(s, e).conState == Closing <==> IsClose(s, e) || (s.conState == Closing && !LeavesClosing(s, e))
    {
      ClosingMoves(s, e);
    }
    SinceIff(es, (s: State) => s.conState == Closing, IsClose, LeavesClosing);
  }

  /** In every run reconnects are aborted exactly when some close() came and no connect() got through since. */
  lemma {:induction false} AbortedIff(es: seq<Event>)
    ensures After(INITIAL, es).abort <==> Since(es, IsClose, LeavesAborted)
  {
    hide Step, Inv, Since, IsClose, LeavesClosing, LeavesAborted, After;
    forall s: State, e: Event | Inv(s)
      ensures Step(s, e).abort <==> IsClose(s, e) || (s.abort && !LeavesAborted(s, e))
    {
      AbortMoves(s, e);
    }
    SinceIff(es, (s: State) => s.abort, IsClose, LeavesAborted);
  }

  /** The loop runs from a connect() on until it has nothing left to do. */
  lemma LoopMoves(s: State, e: Event)
    ensures var t := Step(s, e);
      && (t.net.looping <==>
            (Enabled(s, e) && e.ConnectFinishes?) || (s.net.looping && !(Enabled(s, e) && e.LoopEnds?)))
      && (t.thread <==>
            (Enabled(s, e) && e.ConnectFinishes?) || (s.thread && !(Enabled(s, e) && e.SyncCloseFinishes?)))
  {
    hide TimedOut, Failed, Connected, Disconnected, Retried;
    if Enabled(s, e) {
      if e.OnFail? || e.OnClose? || e.OnOpen? {
        HandlersMove(s, e);
        hide Step;
      } else if e.TimeoutReconnect? {
        TimeoutMoves(s, e);
        hide Step;
      }
    }
  }

  /** Where the callers of connect() and sync_close() are; those that join go on when the loop is over. */
  lemma CallerMoves(s: State, e: Event)
    ensures Step(s, e).caller ==
      if !Enabled(s, e) then s.caller
      else if e.ConnectCancels? then Cancelled
      else if e.ConnectChecks? then
        (if s.thread && (s.conState == Opening || s.conState == Opened) then Idle else JoiningToConnect)
      else if e.SyncClose? then (if s.thread then JoiningToClose else Idle)
      else if e.ConnectFinishes? || e.SyncCloseFinishes? then Idle
      else s.caller
    ensures Enabled(s, e) && (e.SyncCloseFinishes? || (e.ConnectFinishes? && s.thread)) ==> !s.net.looping
  {
    hide Next;
    if e.RunTask? || e.OnFail? || e.OnClose? {
      hide TimedOut, Connected;
    }
  }

  /** In every run, when a sync_close() that found a thread returns, nothing is left of the connection. */
  lemma {:induction false} SyncCloseLeavesNothing(es: seq<Event>)
    requires Enabled(After(INITIAL, es), SyncCloseFinishes)
    ensures var t := Step(After(INITIAL, es), SyncCloseFinishes);
      && NothingHeld(t.net) && Connects(t.net.queue) == 0 && !t.net.looping && !t.thread && !t.con
      && (t.conState == Closing || t.conState == Closed) && t.abort
  {
    AtMostOne(es);
    hide After, Connects;
  }

  /** The limit is what was set last; neither delay is ever set past the other. */
  lemma SettingsMove(s: State, e: Event)
    ensures var t := Step(s, e);
      && t.attempts == (if e.SetAttempts? then e.n else s.attempts)
      && t.delay == (if e.SetDelay? then e.millis
           else if e.SetDelayMax? && e.millis < s.delay then e.millis else s.delay)
      && t.delayMax == (if e.SetDelayMax? then e.millis
           else if e.SetDelay? && e.millis > s.delayMax then e.millis else s.delayMax)
  {
    hide TimedOut, Failed, Connected, Disconnected, Retried;
    if Enabled(s, e) {
      if e.OnFail? || e.OnClose? || e.OnOpen? {
        HandlersMove(s, e);
        hide Step;
      } else if e.TimeoutReconnect? {
        TimeoutMoves(s, e);
        hide Step;
      }
    }
  }

  // ---------------------------------------------------------------------------
  // Runs in which it happens
  // ---------------------------------------------------------------------------

  const CLOSED_EARLY := CONNECTING.(
    conState := Closing, abort := true, net := CONNECTING.net.(queue := [ConnectTask, CloseTask]))

  /** connect(), close(), and the attempt succeeds all the same: the connection cannot be closed. */
  lemma OrphanedHappens()
    ensures exists es: seq<Event> :: Orphaned(After(INITIAL, es))
  {
    hide After, Step, Orphaned;
    var es := ConnectedOnce();
    var s := CONNECTING;
    es, s := Then(es, s, Event.Close);
    es, s := Then(es, s, RunTask(true));
    es, s := Then(es, s, OnOpen);
    ClosedEarly();
    OrphanedThen();
  }

  lemma ClosedEarly()
    ensures Step(CONNECTING, Event.Close) == CLOSED_EARLY
  {
    hide Retried;
  }

  lemma OrphanedThen()
    ensures Orphaned(Step(Step(CLOSED_EARLY, RunTask(true)), OnOpen))
  {
    hide Retried;
  }

  /** connect() with a URI that connect_impl refuses. */
  lemma StuckHappens()
    ensures exists es: seq<Event> :: Stuck(After(INITIAL, es))
  {
    hide After, Step, Stuck;
    var es := ConnectedOnce();
    var s := CONNECTING;
    es, s := Then(es, s, RunTask(false));
    RefusedIsStuck();
  }

  lemma RefusedIsStuck()
    ensures Stuck(Step(CONNECTING, RunTask(false)))
  {
    hide Retried;
  }

  /** The first attempt fails and its timer is set; then no reconnects are allowed, and one is made. */
  lemma LimitExceededHappens()
    ensures exists es: seq<Event> ::
      !KeepsTo(Step(After(INITIAL, es), SetAttempts(0)), 0) && After(INITIAL, es).made == 0
  {
    hide After, Step, KeepsTo;
    var es := ConnectedOnce();
    var s := CONNECTING;
    es, s := Then(es, s, RunTask(true));
    es, s := Then(es, s, OnFail(false));
    FirstFails();
    assert WAITING.made + Pending(WAITING) == 1;
    NewLimitIsKeptIff(es, 0);
  }

  // ---------------------------------------------------------------------------
  // Backoff in every run
  // ---------------------------------------------------------------------------

  /** Whatever was set in whatever order, the wait lies between the two settings. */
  lemma {:induction false} BackoffInEveryRun(es: seq<Event>)
    ensures var s := After(INITIAL, es); s.delay <= Delay(s) <= s.delayMax
  {
    hide Delay, After;
    AtMostOne(es);
    DelayIsBetween(After(INITIAL, es));
  }
}
