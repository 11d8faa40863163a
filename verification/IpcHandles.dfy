module IpcHandles {
  // The descriptors of the POSIX server, over every interleaving of its four slots, `start()` and `stop()`. The
  // steps share one table of descriptors whose numbers the whole process reuses.

  import opened Text

  const SLOTS := 4

  /** What a descriptor number stands for at the moment. */
  datatype Owner =
    | Listener
    | Client(conn: nat, slot: nat)     // the connection, and the slot that accepted it
    | Foreign                          // anything else in the process

  /** Where a slot's thread stands; `fd` is its local variable `client`. */
  datatype Thread =
    | Top                              // about to read `m_running`
    | Polling                          // past that check, not accepted yet
    | Accepted(fd: nat)                // not made non-blocking yet
    | Prepared(fd: nat)                // about to publish the descriptor
    | Serving(fd: nat)                 // in the inner loop: about to check `m_running`, or writing
    | Reading(fd: nat)                 // past that check, in `recv` or in the poll before it
    | Waiting(fd: nat)                 // has a request, waits for the handler's turn
    | Handling(fd: nat)                // in the handler
    | Leaving(fd: nat)                 // about to take the descriptor back
    | Closing(fd: nat)                 // took it back, about to close it
    | Exited

  /** Where the one thread that calls `start()` and `stop()` stands. */
  datatype Control =
    | AtRest
    | Taking(slot: nat)                // about to exchange that slot's descriptor for -1
    | ShuttingDown(slot: nat)          // about to shut down what the exchange gave
    | Joining(slot: nat)
    | ClosingTaken(slot: nat)
    | ClosingListener

  datatype State = State(
    running: bool,
    listener: Option<nat>,
    threads: seq<Thread>,
    active: seq<Option<nat>>,          // m_activeClients, None for -1
    taken: seq<Option<nat>>,           // taken_clients of the stop under way
    control: Control,
    turn: Option<nat>,                 // the slot that holds m_handlerCallMutex
    table: map<nat, Owner>,
    // Histories: the descriptor each connection was accepted as, and the connections closed, in order.
    accepted: seq<nat>,
    closed: seq<nat>)

  const START := State(
    false, None, [Exited, Exited, Exited, Exited], [None, None, None, None], [None, None, None, None],
    AtRest, None, map[], [], [])

  datatype Step =
    // the rest of the process
    | Opens(fd: nat)
    | Closes(fd: nat)
    // start() and stop()
    | Start(fd: nat)
    | Stop
    | Control
    // a slot's thread
    | Slot(slot: nat, move: Move)

  datatype Move =
    | Checks                           // reads m_running at the top of the loop
    | FindsNobody                      // poll or accept brought nothing
    | Accepts(fd: nat)
    | Prepares
    | CannotPrepare
    | Publishes
    | BeginsToRead
    | ReadsSome                        // nothing, or part of a request: the check comes again
    | ReadsRequest                     // the rest of a request, whatever `m_running` is by now
    | GetsTurn
    | Handles
    | LeavesLoop                       // idle, closed, in error or stopped
    | TakesBack                        // the compare-exchange, whichever way it goes
    | ClosesOwn

  function FdOf(t: Thread): Option<nat> {
    if t.Top? || t.Polling? || t.Exited? then None else Some(t.fd)
  }

  /** close(): the number is free afterwards, whatever it stood for. */
  function Close(s: State, fd: nat): State {
    s.(table := s.table - {fd},
       closed := if fd in s.table && s.table[fd].Client? then s.closed + [s.table[fd].conn] else s.closed)
  }

  predicate SlotMay(s: State, slot: nat, move: Move)
    requires slot < |s.threads| == |s.active|
  {
    var t := s.threads[slot];
    match move
    case Checks => t.Top?
    case FindsNobody => t.Polling?
    case Accepts(fd) => t.Polling? && fd !in s.table
    case Prepares => t.Accepted?
    case CannotPrepare => t.Accepted?
    case Publishes => t.Prepared?
    case BeginsToRead => t.Serving? && s.running
    case ReadsSome => t.Reading?
    case ReadsRequest => t.Reading?
    case GetsTurn => t.Waiting? && s.turn.None?
    case Handles => t.Handling?
    case LeavesLoop => t.Serving?
    case TakesBack => t.Leaving?
    case ClosesOwn => t.Closing?
  }

  function Moved(s: State, slot: nat, t: Thread): State
    requires slot < |s.threads|
  {
    s.(threads := s.threads[slot := t])
  }

  function SlotNext(s: State, slot: nat, move: Move): State
    requires slot < |s.threads| == |s.active| && SlotMay(s, slot, move)
  {
    var t := s.threads[slot];
    match move
    case Checks => Moved(s, slot, if s.running then Polling else Exited)
    case FindsNobody => Moved(s, slot, Top)
    case Accepts(fd) =>
      Moved(s, slot, Accepted(fd)).(table := s.table[fd := Client(|s.accepted|, slot)], accepted := s.accepted + [fd])
    case Prepares => Moved(s, slot, Prepared(t.fd))
    case CannotPrepare => Moved(Close(s, t.fd), slot, Top)
    case Publishes => Moved(s, slot, Serving(t.fd)).(active := s.active[slot := Some(t.fd)])
    case BeginsToRead => Moved(s, slot, Reading(t.fd))
    case ReadsSome => Moved(s, slot, Serving(t.fd))
    case ReadsRequest => Moved(s, slot, Waiting(t.fd))
    case GetsTurn => Moved(s, slot, Handling(t.fd)).(turn := Some(slot))
    case Handles => Moved(s, slot, Serving(t.fd)).(turn := None)
    case LeavesLoop => Moved(s, slot, Leaving(t.fd))
    case TakesBack =>
      if s.active[slot] == Some(t.fd) then Moved(s, slot, Closing(t.fd)).(active := s.active[slot := None])
      else Moved(s, slot, Top)
    case ClosesOwn => Moved(Close(s, t.fd), slot, Top)
  }

  predicate Shaped(s: State) {
    |s.threads| == |s.active| == |s.taken| == SLOTS
  }

  predicate ControlMay(s: State)
    requires Shaped(s)
  {
    match s.control
    case AtRest => false
    case Taking(slot) => slot < SLOTS
    case ShuttingDown(slot) => slot < SLOTS
    case Joining(slot) => slot < SLOTS && s.threads[slot].Exited?
    case ClosingTaken(slot) => slot < SLOTS
    case ClosingListener => true
  }

  /** stop() moves on. Shutting a connection down ends what its slot waits for and changes no number. */
  function ControlNext(s: State): State
    requires Shaped(s) && ControlMay(s)
  {
    match s.control
    case Taking(slot) =>
      s.(taken := s.taken[slot := s.active[slot]], active := s.active[slot := None], control := ShuttingDown(slot))
    case ShuttingDown(slot) => s.(control := if slot + 1 < SLOTS then Taking(slot + 1) else Joining(0))
    case Joining(slot) => s.(control := if slot + 1 < SLOTS then Joining(slot + 1) else ClosingTaken(0))
    case ClosingTaken(slot) =>
      var next := if s.taken[slot].Some? then Close(s, s.taken[slot].value).(taken := s.taken[slot := None]) else s;
      next.(control := if slot + 1 < SLOTS then ClosingTaken(slot + 1) else ClosingListener)
    case ClosingListener =>
      (if s.listener.Some? then Close(s, s.listener.value) else s).(listener := None, control := AtRest)
  }

  predicate May(s: State, step: Step) {
    match step
    case Opens(fd) => fd !in s.table
    case Closes(fd) => fd in s.table && s.table[fd].Foreign?
    case Start(fd) => s.control.AtRest? && !s.running && fd !in s.table
    case Stop => s.control.AtRest? && s.running
    case Control => Shaped(s) && ControlMay(s)
    case Slot(slot, move) => Shaped(s) && slot < SLOTS && SlotMay(s, slot, move)
  }

  function Next(s: State, step: Step): State
    requires May(s, step)
  {
    match step
    case Opens(fd) => s.(table := s.table[fd := Foreign])
    case Closes(fd) => s.(table := s.table - {fd})
    case Start(fd) =>
      s.(running := true, listener := Some(fd), table := s.table[fd := Listener],
         threads := [Top, Top, Top, Top], active := [None, None, None, None], taken := [None, None, None, None])
    case Stop => s.(running := false, taken := [None, None, None, None], control := Taking(0))
    case Control => ControlNext(s)
    case Slot(slot, move) => SlotNext(s, slot, move)
  }

  predicate Allowed(s: State, steps: seq<Step>)
    decreases |steps|
  {
    steps != [] ==> May(s, steps[0]) && Allowed(Next(s, steps[0]), steps[1..])
  }

  function After(s: State, steps: seq<Step>): State
    requires Allowed(s, steps)
    decreases |steps|
  {
    if steps == [] then s else After(Next(s, steps[0]), steps[1..])
  }

  // ----- What every step keeps -----

  predicate InLoop(t: Thread) {
    t.Serving? || t.Reading? || t.Waiting? || t.Handling? || t.Leaving?
  }

  /** The descriptor slot `i` is answerable for: its thread's while it serves one, else what stop() took. */
  function HeldBy(s: State, i: nat): Option<nat>
    requires Shaped(s) && i < SLOTS
  {
    if FdOf(s.threads[i]).Some? then FdOf(s.threads[i]) else s.taken[i]
  }

  /** A slot's thread, its place in the array and what stop() took from it agree. */
  predicate SlotInv(s: State, i: nat)
    requires Shaped(s) && i < SLOTS
  {
    var t := s.threads[i];
    && (if InLoop(t) then
          if s.taken[i].None? then s.active[i] == Some(t.fd) else s.taken[i] == Some(t.fd) && s.active[i] == None
        else
          s.active[i] == None && (s.taken[i].Some? ==> t.Top? || t.Exited?))
    && (s.taken[i].Some? ==> Stopping(s.control) && Takes(s.control, i))
    && (t.Handling? <==> s.turn == Some(i))
    && (Joined(s.control, i) ==> t.Exited?)
    && (!s.running && s.control.AtRest? ==> t.Exited?)
    && (s.running ==> !t.Exited?)
  }

  predicate Stopping(c: Control) {
    !c.AtRest?
  }

  /** stop() has come past slot `i`'s exchange and not yet past closing what it gave. */
  predicate Takes(c: Control, i: nat) {
    match c
    case AtRest => false
    case Taking(slot) => i < slot
    case ShuttingDown(slot) => i <= slot
    case Joining(_) => true
    case ClosingTaken(slot) => slot <= i
    case ClosingListener => false
  }

  predicate Joined(c: Control, i: nat) {
    match c
    case Joining(slot) => i < slot
    case ClosingTaken(_) => true
    case ClosingListener => true
    case _ => false
  }

  predicate HeldInv(s: State, i: nat)
    requires Shaped(s) && i < SLOTS
  {
    HeldBy(s, i).Some? ==>
      var fd := HeldBy(s, i).value;
      fd in s.table && s.table[fd].Client? && s.table[fd].slot == i
  }

  predicate TableInv(s: State, fd: nat)
    requires Shaped(s) && fd in s.table
  {
    match s.table[fd]
    case Foreign => true
    case Listener => s.listener == Some(fd)
    case Client(conn, slot) =>
      && slot < SLOTS && HeldBy(s, slot) == Some(fd)
      && conn < |s.accepted| && s.accepted[conn] == fd && conn !in s.closed
  }

  predicate ConnInv(s: State, conn: nat)
    requires conn < |s.accepted|
  {
    conn !in s.closed ==>
      var fd := s.accepted[conn];
      fd in s.table && s.table[fd].Client? && s.table[fd].conn == conn
  }

  /** The table, what slots and stop() hold, and the histories agree. */
  predicate Books(s: State)
    requires Shaped(s)
  {
    && (forall i :: 0 <= i < SLOTS ==> HeldInv(s, i))
    && (forall fd <- s.table :: TableInv(s, fd))
    && (forall conn :: 0 <= conn < |s.accepted| ==> ConnInv(s, conn))
    && (forall i, j :: 0 <= i < j < |s.closed| ==> s.closed[i] != s.closed[j])
    && (forall i :: 0 <= i < |s.closed| ==> s.closed[i] < |s.accepted|)
    && (s.listener.Some? ==> s.listener.value in s.table && s.table[s.listener.value] == Listener)
  }

  predicate Inv(s: State) {
    && Shaped(s) && Books(s)
    && (forall i :: 0 <= i < SLOTS ==> SlotInv(s, i))
    && (s.listener.Some? <==> (s.running || Stopping(s.control)))
    && (s.running ==> s.control.AtRest?)
    && InRange(s.control)
    && (s.turn.Some? ==> s.turn.value < SLOTS)
  }

  predicate InRange(c: Control) {
    match c
    case AtRest => true
    case Taking(slot) => slot < SLOTS
    case ShuttingDown(slot) => slot < SLOTS
    case Joining(slot) => slot < SLOTS
    case ClosingTaken(slot) => slot < SLOTS
    case ClosingListener => true
  }

  lemma StartInv()
    ensures Inv(START)
  {
  }

  // ----- The books over one step -----

  /** Nothing moves but what slots and stop() do with what they hold. */
  lemma SameBooks(s: State, t: State)
    requires Shaped(s) && Shaped(t) && Books(s)
    requires t.table == s.table && t.accepted == s.accepted && t.closed == s.closed && t.listener == s.listener
    requires forall i :: 0 <= i < SLOTS ==> HeldBy(t, i) == HeldBy(s, i)
    ensures Books(t)
  {
    hide HeldBy;
    forall i | 0 <= i < SLOTS ensures HeldInv(t, i) { assert HeldInv(s, i); }
    forall fd <- t.table ensures TableInv(t, fd) { assert TableInv(s, fd); }
    forall conn | 0 <= conn < |t.accepted| ensures ConnInv(t, conn) { assert ConnInv(s, conn); }
  }

  /** The one who holds a connection's descriptor closes it: the connection's first close, and no other
      descriptor's. */
  lemma ClosesHeld(s: State, t: State, i: nat, fd: nat)
    requires Shaped(s) && Shaped(t) && Books(s) && i < SLOTS && HeldBy(s, i) == Some(fd)
    requires t.table == Close(s, fd).table && t.closed == Close(s, fd).closed
    requires t.accepted == s.accepted && t.listener == s.listener
    requires HeldBy(t, i).None? && forall j :: 0 <= j < SLOTS && j != i ==> HeldBy(t, j) == HeldBy(s, j)
    ensures Books(t)
  {
    hide HeldBy;
    assert HeldInv(s, i) && TableInv(s, fd);
    var conn := s.table[fd].conn;
    forall j | 0 <= j < SLOTS ensures HeldInv(t, j) { assert HeldInv(s, j); }
    forall d <- t.table ensures TableInv(t, d) {
      assert TableInv(s, d);
      assert s.table[d].Client? && s.table[d].conn == conn ==> d == fd;
    }
    forall k | 0 <= k < |t.accepted| ensures ConnInv(t, k) { assert ConnInv(s, k); }
  }

  /** A new connection, whatever number it comes as. */
  lemma AcceptsOne(s: State, t: State, i: nat, fd: nat)
    requires Shaped(s) && Shaped(t) && Books(s) && i < SLOTS && fd !in s.table && HeldBy(s, i).None?
    requires t.table == s.table[fd := Client(|s.accepted|, i)] && t.accepted == s.accepted + [fd]
    requires t.closed == s.closed && t.listener == s.listener
    requires HeldBy(t, i) == Some(fd) && forall j :: 0 <= j < SLOTS && j != i ==> HeldBy(t, j) == HeldBy(s, j)
    ensures Books(t)
  {
    hide HeldBy;
    forall j | 0 <= j < SLOTS ensures HeldInv(t, j) { assert HeldInv(s, j); }
    forall d <- t.table ensures TableInv(t, d) { if d != fd { assert TableInv(s, d); } }
    forall k | 0 <= k < |t.accepted| ensures ConnInv(t, k) { if k < |s.accepted| { assert ConnInv(s, k); } }
  }

  /** A number of the process's own, opened or closed, or the listener's. */
  lemma OthersChange(s: State, t: State, fd: nat)
    requires Shaped(s) && Shaped(t) && Books(s) && t.accepted == s.accepted && t.closed == s.closed
    requires forall i :: 0 <= i < SLOTS ==> HeldBy(t, i) == HeldBy(s, i)
    requires forall d :: d != fd ==> (d in t.table <==> d in s.table) && (d in s.table ==> t.table[d] == s.table[d])
    requires fd in s.table ==> !s.table[fd].Client?
    requires fd in t.table ==> t.table[fd].Foreign? || (t.table[fd].Listener? && t.listener == Some(fd))
    requires || (t.listener == s.listener && (fd in s.table ==> s.table[fd].Foreign?))
             || (t.listener == Some(fd) && fd in t.table && t.table[fd].Listener? && s.listener.None?)
             || (t.listener.None? && s.listener == Some(fd))
    ensures Books(t)
  {
    hide HeldBy;
    forall j | 0 <= j < SLOTS ensures HeldInv(t, j) { assert HeldInv(s, j); }
    forall d <- t.table ensures TableInv(t, d) { if d != fd { assert TableInv(s, d); } }
    forall k | 0 <= k < |t.accepted| ensures ConnInv(t, k) { assert ConnInv(s, k); }
  }

  // ----- One step -----

  lemma EnvironmentKeeps(s: State, step: Step)
    requires Inv(s) && May(s, step) && (step.Opens? || step.Closes?)
    ensures Inv(Next(s, step))
  {
    hide Books;
    var t := Next(s, step);
    OthersChange(s, t, step.fd);
    forall i | 0 <= i < SLOTS ensures SlotInv(t, i) { assert SlotInv(s, i); }
  }

  lemma StartKeeps(s: State, fd: nat)
    requires Inv(s) && May(s, Start(fd))
    ensures Inv(Next(s, Start(fd)))
  {
    hide Books;
    var t := Next(s, Start(fd));
    forall i | 0 <= i < SLOTS ensures SlotInv(t, i) && HeldBy(s, i).None? && HeldBy(t, i).None? { assert SlotInv(s, i); }
    OthersChange(s, t, fd);
  }

  lemma StopKeeps(s: State)
    requires Inv(s) && May(s, Stop)
    ensures Inv(Next(s, Stop))
  {
    hide Books;
    var t := Next(s, Stop);
    forall i | 0 <= i < SLOTS ensures SlotInv(t, i) && HeldBy(t, i) == HeldBy(s, i) { assert SlotInv(s, i); }
    SameBooks(s, t);
  }

  lemma ControlKeepsSlot(s: State, i: nat)
    requires Shaped(s) && i < SLOTS && SlotInv(s, i) && ControlMay(s) && InRange(s.control) && !s.running
    ensures SlotInv(ControlNext(s), i)
  {
  }

  lemma ControlKeeps(s: State)
    requires Inv(s) && May(s, Step.Control)
    ensures Inv(Next(s, Step.Control))
  {
    hide Books, SlotInv;
    var t := Next(s, Step.Control);
    forall i | 0 <= i < SLOTS ensures SlotInv(t, i) { ControlKeepsSlot(s, i); }
    ControlKeepsBooks(s);
  }

  lemma ControlKeepsBooks(s: State)
    requires Inv(s) && May(s, Step.Control)
    ensures Books(ControlNext(s))
  {
    hide Books;
    var t := ControlNext(s);
    match s.control
    case Taking(slot) =>
      assert SlotInv(s, slot);
      SameBooks(s, t);
    case ShuttingDown(_) => SameBooks(s, t);
    case Joining(_) => SameBooks(s, t);
    case ClosingTaken(slot) =>
      assert SlotInv(s, slot);
      if s.taken[slot].Some? { ClosesHeld(s, t, slot, s.taken[slot].value); } else { SameBooks(s, t); }
    case ClosingListener => ListenerCloses(s, t);
  }

  lemma ListenerCloses(s: State, t: State)
    requires Inv(s) && s.control.ClosingListener? && t == ControlNext(s)
    ensures Books(t)
  {
    assert s.listener.Some?;
    assert s.table[s.listener.value] == Listener;
    hide Books;
    OthersChange(s, t, s.listener.value);
  }

  lemma SlotKeepsSlot(s: State, slot: nat, move: Move, i: nat)
    requires Shaped(s) && slot < SLOTS && SlotMay(s, slot, move) && SlotInv(s, slot) && i < SLOTS && SlotInv(s, i)
    requires s.running ==> s.control.AtRest?
    ensures SlotInv(SlotNext(s, slot, move), i)
  {
  }

  lemma SlotKeeps(s: State, slot: nat, move: Move)
    requires Inv(s) && May(s, Slot(slot, move))
    ensures Inv(Next(s, Slot(slot, move)))
  {
    hide Books, SlotInv;
    var t := Next(s, Slot(slot, move));
    forall i | 0 <= i < SLOTS ensures SlotInv(t, i) { SlotKeepsSlot(s, slot, move, i); }
    SlotKeepsBooks(s, slot, move);
  }

  /** Which slot holds what changes only where a descriptor is accepted or closed. */
  lemma HoldsTheSame(s: State, slot: nat, move: Move)
    requires Shaped(s) && slot < SLOTS && SlotMay(s, slot, move) && SlotInv(s, slot)
    requires !move.Accepts? && !move.CannotPrepare? && !move.ClosesOwn?
    ensures var t := SlotNext(s, slot, move);
      && Shaped(t) && t.table == s.table && t.accepted == s.accepted && t.closed == s.closed && t.listener == s.listener
      && forall i :: 0 <= i < SLOTS ==> HeldBy(t, i) == HeldBy(s, i)
  {
  }

  /** The number accepted or closed, and that the other slots hold what they held. */
  lemma HoldsAnother(s: State, slot: nat, move: Move)
    requires Shaped(s) && slot < SLOTS && SlotMay(s, slot, move) && SlotInv(s, slot)
    requires move.Accepts? || move.CannotPrepare? || move.ClosesOwn?
    ensures var t := SlotNext(s, slot, move);
      && Shaped(t) && t.listener == s.listener && HeldBy(s, slot) == (if move.Accepts? then None else Some(s.threads[slot].fd))
      && HeldBy(t, slot) == (if move.Accepts? then Some(move.fd) else None)
      && forall i :: 0 <= i < SLOTS && i != slot ==> HeldBy(t, i) == HeldBy(s, i)
  {
  }

  lemma SlotKeepsBooks(s: State, slot: nat, move: Move)
    requires Shaped(s) && slot < SLOTS && SlotMay(s, slot, move) && Books(s) && SlotInv(s, slot)
    ensures Books(SlotNext(s, slot, move))
  {
    hide Books, HeldBy, SlotInv;
    var t := SlotNext(s, slot, move);
    if move.Accepts? || move.CannotPrepare? || move.ClosesOwn? {
      HoldsAnother(s, slot, move);
      if move.Accepts? { AcceptsOne(s, t, slot, move.fd); } else { ClosesHeld(s, t, slot, s.threads[slot].fd); }
    } else {
      HoldsTheSame(s, slot, move);
      SameBooks(s, t);
    }
  }

  lemma StepKeepsInv(s: State, step: Step)
    requires Inv(s) && May(s, step)
    ensures Inv(Next(s, step))
  {
    hide Inv, May, Next;
    match step
    case Opens(_) => EnvironmentKeeps(s, step);
    case Closes(_) => EnvironmentKeeps(s, step);
    case Start(fd) => StartKeeps(s, fd);
    case Stop => StopKeeps(s);
    case Control => ControlKeeps(s);
    case Slot(slot, move) => SlotKeeps(s, slot, move);
  }

  lemma {:induction false} RunKeepsInv(s: State, steps: seq<Step>)
    requires Inv(s) && Allowed(s, steps)
    ensures Inv(After(s, steps))
    decreases |steps|
  {
    hide Inv, Next, May;
    if steps != [] {
      StepKeepsInv(s, steps[0]);
      RunKeepsInv(Next(s, steps[0]), steps[1..]);
    }
  }

  // ----- Over every run -----

  /** No connection is closed twice, and one that was not closed yet is held by exactly one slot or by
      stop(), under the number it was accepted as. */
  lemma EveryConnectionIsAccountedFor(steps: seq<Step>)
    requires Allowed(START, steps)
    ensures var s := After(START, steps);
      && Shaped(s)
      && (forall i, j :: 0 <= i < j < |s.closed| ==> s.closed[i] != s.closed[j])
      && (forall conn :: 0 <= conn < |s.accepted| && conn !in s.closed ==>
            exists slot :: 0 <= slot < SLOTS && HeldBy(s, slot) == Some(s.accepted[conn])
                           && forall other :: 0 <= other < SLOTS && HeldBy(s, other) == HeldBy(s, slot) ==> other == slot)
  {
    hide After, Allowed, HeldBy;
    StartInv();
    RunKeepsInv(START, steps);
    var s := After(START, steps);
    forall conn | 0 <= conn < |s.accepted| && conn !in s.closed
      ensures exists slot :: 0 <= slot < SLOTS && HeldBy(s, slot) == Some(s.accepted[conn])
                             && forall other :: 0 <= other < SLOTS && HeldBy(s, other) == HeldBy(s, slot) ==> other == slot
    {
      HolderOf(s, conn);
    }
  }

  lemma HolderOf(s: State, conn: nat)
    requires Inv(s) && conn < |s.accepted| && conn !in s.closed
    ensures exists slot :: 0 <= slot < SLOTS && HeldBy(s, slot) == Some(s.accepted[conn])
                           && forall other :: 0 <= other < SLOTS && HeldBy(s, other) == HeldBy(s, slot) ==> other == slot
  {
    hide HeldBy;
    assert ConnInv(s, conn);
    var fd := s.accepted[conn];
    assert TableInv(s, fd);
    var slot := s.table[fd].slot;
    forall other | 0 <= other < SLOTS && HeldBy(s, other) == HeldBy(s, slot) ensures other == slot {
      assert HeldInv(s, other);
    }
  }

  /** Once stop() has returned, every connection ever accepted has been closed exactly once and no
      descriptor of the server's is open. */
  lemma StopLeavesNothingOpen(steps: seq<Step>)
    requires Allowed(START, steps)
    requires var s := After(START, steps); !s.running && s.control.AtRest?
    ensures var s := After(START, steps);
      && (forall fd <- s.table :: s.table[fd].Foreign?)
      && (forall conn :: 0 <= conn < |s.accepted| ==> multiset(s.closed)[conn] == 1)
  {
    hide After, Allowed;
    StartInv();
    RunKeepsInv(START, steps);
    var s := After(START, steps);
    forall i | 0 <= i < SLOTS ensures HeldBy(s, i).None? { assert SlotInv(s, i); }
    forall fd <- s.table ensures s.table[fd].Foreign? { assert TableInv(s, fd); }
    forall conn | 0 <= conn < |s.accepted| ensures multiset(s.closed)[conn] == 1 {
      assert ConnInv(s, conn);
      OnlyOnce(s.closed, conn);
    }
  }

  lemma {:induction false} OnlyOnce(all: seq<nat>, x: nat)
    requires forall i, j :: 0 <= i < j < |all| ==> all[i] != all[j]
    ensures multiset(all)[x] == if x in all then 1 else 0
    decreases |all|
  {
    if all != [] {
      var rest := all[..|all| - 1];
      assert all == rest + [all[|all| - 1]];
      OnlyOnce(rest, x);
    }
  }

  /** Whatever number is reused in the meantime: the descriptor stop() shuts down or closes is the
      connection it took, still open; the one a slot reads, writes or closes is its own connection; and
      the one a slot polls and accepts from is the listener. */
  lemma EveryCallHitsItsOwn(steps: seq<Step>, slot: nat)
    requires Allowed(START, steps) && slot < SLOTS
    ensures var s := After(START, steps);
      && Shaped(s)
      && (s.control == ShuttingDown(slot) || s.control == ClosingTaken(slot) ==>
            s.taken[slot].Some? ==> IsOpenClient(s, s.taken[slot].value, slot))
      && (FdOf(s.threads[slot]).Some? ==> IsOpenClient(s, FdOf(s.threads[slot]).value, slot))
      && (s.threads[slot].Polling? ==>
            s.listener.Some? && s.listener.value in s.table && s.table[s.listener.value] == Listener)
  {
    hide After, Allowed;
    StartInv();
    RunKeepsInv(START, steps);
    var s := After(START, steps);
    assert SlotInv(s, slot) && HeldInv(s, slot);
    if HeldBy(s, slot).Some? { assert TableInv(s, HeldBy(s, slot).value); }
  }

  predicate IsOpenClient(s: State, fd: nat, slot: nat) {
    && fd in s.table && s.table[fd].Client? && s.table[fd].slot == slot
    && s.table[fd].conn < |s.accepted| && s.accepted[s.table[fd].conn] == fd && s.table[fd].conn !in s.closed
  }

  /** No step of the server's touches a descriptor of the rest of the process. */
  lemma OthersAreLeftAlone(steps: seq<Step>, step: Step, fd: nat)
    requires Allowed(START, steps) && May(After(START, steps), step) && !step.Opens? && !step.Closes?
    requires var s := After(START, steps); fd in s.table && s.table[fd].Foreign?
    ensures var t := Next(After(START, steps), step); fd in t.table && t.table[fd].Foreign?
  {
    hide After, Allowed, Inv, May, Next;
    StartInv();
    RunKeepsInv(START, steps);
    LeavesAlone(After(START, steps), step, fd);
  }

  lemma LeavesAlone(s: State, step: Step, fd: nat)
    requires Inv(s) && May(s, step) && !step.Opens? && !step.Closes? && fd in s.table && s.table[fd].Foreign?
    ensures fd in Next(s, step).table && Next(s, step).table[fd].Foreign?
  {
    hide SlotInv;
    match step
    case Start(_) =>
    case Stop =>
    case Control =>
      if s.control.ClosingTaken? {
        TakenIsHeld(s, s.control.slot);
        assert HeldInv(s, s.control.slot);
      }
    case Slot(slot, move) =>
      assert HeldInv(s, slot);
      SlotCloses(s, slot, move, fd);
  }

  lemma TakenIsHeld(s: State, slot: nat)
    requires Shaped(s) && slot < SLOTS && SlotInv(s, slot)
    ensures s.taken[slot].Some? ==> HeldBy(s, slot) == s.taken[slot]
  {
  }

  lemma SlotCloses(s: State, slot: nat, move: Move, fd: nat)
    requires Shaped(s) && slot < SLOTS && SlotMay(s, slot, move) && fd in s.table && FdOf(s.threads[slot]) != Some(fd)
    ensures fd in SlotNext(s, slot, move).table && SlotNext(s, slot, move).table[fd] == s.table[fd]
  {
  }

  /** The handler runs in one slot at a time, for a connection of that slot's that is still open, and in none
      once stop() has returned. */
  lemma OneHandlerAtATime(steps: seq<Step>, i: nat, j: nat)
    requires Allowed(START, steps) && i < j < SLOTS
    ensures var s := After(START, steps);
      && Shaped(s) && !(s.threads[i].Handling? && s.threads[j].Handling?)
      && (s.threads[i].Handling? ==> IsOpenClient(s, s.threads[i].fd, i))
      && (s.threads[j].Handling? ==> IsOpenClient(s, s.threads[j].fd, j))
      && (!s.running && s.control.AtRest? ==> !s.threads[i].Handling? && !s.threads[j].Handling?)
  {
    EveryCallHitsItsOwn(steps, i);
    EveryCallHitsItsOwn(steps, j);
    hide After, Allowed, Books, IsOpenClient;
    StartInv();
    RunKeepsInv(START, steps);
    assert SlotInv(After(START, steps), i) && SlotInv(After(START, steps), j);
  }

  // ----- stop() comes to an end -----

  /** How many moves a slot's thread can still make once `m_running` is false. */
  function ThreadRank(t: Thread): nat {
    match t
    case Exited => 0
    case Top => 1
    case Closing(_) => 2
    case Leaving(_) => 3
    case Serving(_) => 4
    case Reading(_) => 7
    case Handling(_) => 5
    case Waiting(_) => 6
    case Prepared(_) => 5
    case Accepted(_) => 6
    case Polling => 7
  }

  function ControlRank(c: Control): int {
    match c
    case AtRest => 0
    case ClosingListener => 1
    case ClosingTaken(slot) => 1 + (SLOTS - slot)
    case Joining(slot) => 5 + (SLOTS - slot)
    case ShuttingDown(slot) => 9 + 2 * (SLOTS - slot) - 1
    case Taking(slot) => 9 + 2 * (SLOTS - slot)
  }

  function Rank(s: State): int
    requires Shaped(s)
  {
    ThreadRank(s.threads[0]) + ThreadRank(s.threads[1]) + ThreadRank(s.threads[2]) + ThreadRank(s.threads[3])
    + ControlRank(s.control)
  }

  /** Until stop() has returned some thread of the server's can always move on, and every such move
      brings it nearer: however the threads interleave, stop() returns. */
  lemma StopComesToAnEnd(steps: seq<Step>)
    requires Allowed(START, steps) && Stopping(After(START, steps).control)
    ensures var s := After(START, steps);
      && Shaped(s) && 0 < Rank(s) <= 45
      && (exists step: Step :: (step.Slot? || step.Control?) && May(s, step))
      && forall step: Step | (step.Slot? || step.Control?) && May(s, step) ::
           Shaped(Next(s, step)) && Rank(Next(s, step)) < Rank(s)
  {
    hide After, Allowed, Books, SlotInv, May, Next, Rank;
    StartInv();
    RunKeepsInv(START, steps);
    var s := After(START, steps);
    RankIsBounded(s);
    var step := MovesOn(s);
    forall step: Step | (step.Slot? || step.Control?) && May(s, step)
      ensures Shaped(Next(s, step)) && Rank(Next(s, step)) < Rank(s)
    {
      ComesNearer(s, step);
    }
  }

  lemma RankIsBounded(s: State)
    requires Shaped(s) && InRange(s.control) && Stopping(s.control)
    ensures 0 < Rank(s) <= 45
  {
  }

  lemma MovesOn(s: State) returns (step: Step)
    requires Inv(s) && Stopping(s.control)
    ensures (step.Slot? || step.Control?) && May(s, step)
  {
    hide Books;
    if ControlMay(s) { return Step.Control; }
    var slot := s.control.slot;
    assert SlotInv(s, slot);
    match s.threads[slot]
    case Top => step := Slot(slot, Checks);
    case Polling => step := Slot(slot, FindsNobody);
    case Accepted(_) => step := Slot(slot, Prepares);
    case Prepared(_) => step := Slot(slot, Publishes);
    case Serving(_) => step := Slot(slot, LeavesLoop);
    case Reading(_) => step := Slot(slot, ReadsSome);
    case Waiting(_) =>
      if s.turn.Some? { assert SlotInv(s, s.turn.value); }
      step := if s.turn.None? then Slot(slot, GetsTurn) else Slot(s.turn.value, Handles);
    case Handling(_) => step := Slot(slot, Handles);
    case Leaving(_) => step := Slot(slot, TakesBack);
    case Closing(_) => step := Slot(slot, ClosesOwn);
  }

  lemma ThreadComesNearer(s: State, slot: nat, move: Move)
    requires Shaped(s) && slot < SLOTS && SlotMay(s, slot, move) && !s.running
    ensures var t := SlotNext(s, slot, move);
      && Shaped(t) && t.control == s.control && ThreadRank(t.threads[slot]) < ThreadRank(s.threads[slot])
      && forall i :: 0 <= i < SLOTS && i != slot ==> t.threads[i] == s.threads[i]
  {
  }

  lemma ControlComesNearer(s: State)
    requires Shaped(s) && ControlMay(s)
    ensures var t := ControlNext(s);
      Shaped(t) && t.threads == s.threads && ControlRank(t.control) < ControlRank(s.control)
  {
  }

  lemma ComesNearer(s: State, step: Step)
    requires Inv(s) && !s.running && (step.Slot? || step.Control?) && May(s, step)
    ensures Shaped(Next(s, step)) && Rank(Next(s, step)) < Rank(s)
  {
    hide Inv, SlotMay, SlotNext, ControlMay, ControlNext, ThreadRank, ControlRank;
    match step
    case Control => ControlComesNearer(s);
    case Slot(slot, move) => ThreadComesNearer(s, slot, move);
  }

  // ----- What becomes of a request -----

  predicate IsMove(step: Step, slot: nat, move: Move) {
    step.Slot? && step.slot == slot && step.move == move
  }

  /** How often slot `slot` made this move. */
  function Times(steps: seq<Step>, slot: nat, move: Move): nat
    decreases |steps|
  {
    if steps == [] then 0 else (if IsMove(steps[0], slot, move) then 1 else 0) + Times(steps[1..], slot, move)
  }

  /** The slot holds a request it has read and the handler has not finished. */
  predicate Pending(s: State, slot: nat)
    requires Shaped(s) && slot < SLOTS
  {
    s.threads[slot].Waiting? || s.threads[slot].Handling?
  }

  function Held(s: State, slot: nat): int
    requires Shaped(s) && slot < SLOTS
  {
    if Pending(s, slot) then 1 else 0
  }

  /** What one move of a slot does to the request it holds; other slots are where they were. */
  lemma MoveCounts(s: State, slot: nat, move: Move)
    requires Shaped(s) && slot < SLOTS && SlotMay(s, slot, move)
    ensures var t := SlotNext(s, slot, move);
      && Shaped(t) && (forall i :: 0 <= i < SLOTS && i != slot ==> t.threads[i] == s.threads[i])
      && Held(t, slot) == Held(s, slot) + (if move.ReadsRequest? then 1 else 0) - (if move.Handles? then 1 else 0)
      && (FdOf(t.threads[slot]) != FdOf(s.threads[slot]) || t.threads[slot].Leaving? ==> !Pending(s, slot))
  {
  }

  /** stop() and the rest of the process leave every slot's request as it is, and start() finds none. */
  lemma OthersCount(s: State, step: Step, slot: nat)
    requires Shaped(s) && slot < SLOTS && SlotInv(s, slot) && May(s, step) && !step.Slot?
    ensures var t := Next(s, step);
      Shaped(t) && Held(t, slot) == Held(s, slot) && (t.threads[slot] == s.threads[slot] || !Pending(s, slot))
  {
  }

  lemma StepCounts(s: State, step: Step, slot: nat)
    requires Shaped(s) && slot < SLOTS && SlotInv(s, slot) && May(s, step)
    ensures var t := Next(s, step);
      && Shaped(t)
      && Held(t, slot) == Held(s, slot) + (if IsMove(step, slot, ReadsRequest) then 1 else 0)
                          - (if IsMove(step, slot, Handles) then 1 else 0)
      && (FdOf(s.threads[slot]).Some? && (FdOf(t.threads[slot]) != FdOf(s.threads[slot]) || t.threads[slot].Leaving?) ==>
            !Pending(s, slot))
  {
    hide SlotInv, SlotMay, SlotNext, ControlMay, ControlNext;
    if step.Slot? { MoveCounts(s, step.slot, step.move); } else { OthersCount(s, step, slot); }
  }

  lemma {:induction false} RunCounts(s: State, steps: seq<Step>, slot: nat)
    requires Inv(s) && Allowed(s, steps) && slot < SLOTS
    ensures Inv(After(s, steps))
    ensures Times(steps, slot, ReadsRequest) + Held(s, slot) == Times(steps, slot, Handles) + Held(After(s, steps), slot)
    decreases |steps|
  {
    hide Inv, SlotInv, Shaped, May, Next, Held;
    RunKeepsInv(s, steps);
    if steps != [] {
      IsShaped(s);
      StepCounts(s, steps[0], slot);
      StepKeepsInv(s, steps[0]);
      RunCounts(Next(s, steps[0]), steps[1..], slot);
    }
  }

  lemma IsShaped(s: State)
    requires Inv(s)
    ensures Shaped(s) && forall i :: 0 <= i < SLOTS ==> SlotInv(s, i)
  {
  }

  /** Over every run each request a slot reads is handled once: as often as a slot read one it finished one,
      but for the one it waits with or has in the handler. */
  lemma EveryRequestIsHandled(steps: seq<Step>, slot: nat)
    requires Allowed(START, steps) && slot < SLOTS
    ensures var s := After(START, steps);
      && Shaped(s)
      && Times(steps, slot, ReadsRequest)
         == Times(steps, slot, Handles) + (if s.threads[slot].Waiting? || s.threads[slot].Handling? then 1 else 0)
  {
    hide After, Allowed, Inv, Times;
    StartInv();
    RunCounts(START, steps, slot);
    IsShaped(After(START, steps));
  }

  /** A slot lets go of its connection only with every request it read on it handled. */
  lemma NoRequestIsDropped(steps: seq<Step>, step: Step, slot: nat)
    requires Allowed(START, steps) && May(After(START, steps), step) && slot < SLOTS
    ensures var s, t := After(START, steps), Next(After(START, steps), step);
      && Shaped(s) && Shaped(t)
      && (FdOf(s.threads[slot]).Some? && (FdOf(t.threads[slot]) != FdOf(s.threads[slot]) || t.threads[slot].Leaving?) ==>
            Times(steps, slot, ReadsRequest) == Times(steps, slot, Handles))
  {
    EveryRequestIsHandled(steps, slot);
    hide After, Allowed, Times, Inv, SlotInv, Shaped, May, Next;
    StartInv();
    RunKeepsInv(START, steps);
    IsShaped(After(START, steps));
    StepCounts(After(START, steps), step, slot);
  }

  lemma {:induction false} RunsOn(s: State, steps: seq<Step>, step: Step)
    requires Allowed(s, steps) && May(After(s, steps), step)
    ensures Allowed(s, steps + [step]) && After(s, steps + [step]) == Next(After(s, steps), step)
    decreases |steps|
  {
    hide May, Next;
    if steps == [] {
      assert [] + [step] == [step] && [step][1..] == [];
    } else {
      assert (steps + [step])[1..] == steps[1..] + [step];
      RunsOn(Next(s, steps[0]), steps[1..], step);
    }
  }

  /** The turn is free, or the slot that has it can finish. */
  lemma FreesTurn(s: State, slot: nat, fd: nat) returns (steps: seq<Step>)
    requires Inv(s) && slot < SLOTS && s.threads[slot] == Waiting(fd)
    ensures Allowed(s, steps)
    ensures var t := After(s, steps); Inv(t) && t.threads[slot] == Waiting(fd) && t.turn.None?
  {
    hide Books;
    if s.turn.None? { return []; }
    var other := s.turn.value;
    assert SlotInv(s, other) && SlotInv(s, slot);
    var step := Slot(other, Handles);
    steps := [step];
    assert [step][1..] == [];
    StepKeepsInv(s, step);
  }

  /** From every state a run can reach with a slot reading, it can go on to have that request in the handler on
      the same descriptor, and then to serve the same connection again. */
  lemma AnyRequestCanBeHandled(steps: seq<Step>, slot: nat) returns (more: seq<Step>)
    requires Allowed(START, steps) && slot < SLOTS && Shaped(After(START, steps)) && After(START, steps).threads[slot].Reading?
    ensures var s, fd := After(START, steps), After(START, steps).threads[slot].fd;
      && Allowed(s, more) && Shaped(After(s, more)) && After(s, more).threads[slot] == Handling(fd)
      && Allowed(s, more + [Slot(slot, Handles)])
      && var t := After(s, more + [Slot(slot, Handles)]);
         Shaped(t) && t.threads[slot] == Serving(fd) && IsOpenClient(t, fd, slot)
  {
    hide *;
    StartInv();
    RunKeepsInv(START, steps);
    var s := After(START, steps);
    IsShaped(s);
    var fd := s.threads[slot].fd;
    var s1 := TakesRequest(s, slot);
    var freeing := FreesTurn(s1, slot, fd);
    JoinsRuns(s, Slot(slot, ReadsRequest), freeing);
    var s2 := After(s1, freeing);
    IsShaped(s2);
    TakesTurn(s2, slot, fd);
    more := [Slot(slot, ReadsRequest)] + freeing;
    RunsOn(s, more, Slot(slot, GetsTurn));
    more := more + [Slot(slot, GetsTurn)];
    FinishesCall(After(s, more), slot, fd);
    RunsOn(s, more, Slot(slot, Handles));
  }

  lemma TakesRequest(s: State, slot: nat) returns (t: State)
    requires Inv(s) && slot < SLOTS && Shaped(s) && s.threads[slot].Reading?
    ensures May(s, Slot(slot, ReadsRequest)) && t == Next(s, Slot(slot, ReadsRequest))
    ensures Inv(t) && Shaped(t) && t.threads[slot] == Waiting(s.threads[slot].fd)
  {
    hide Inv;
    t := Next(s, Slot(slot, ReadsRequest));
    StepKeepsInv(s, Slot(slot, ReadsRequest));
  }

  lemma JoinsRuns(s: State, step: Step, rest: seq<Step>)
    requires May(s, step) && Allowed(Next(s, step), rest)
    ensures Allowed(s, [step] + rest) && After(s, [step] + rest) == After(Next(s, step), rest)
  {
    hide May, Next;
    assert ([step] + rest)[1..] == rest;
  }

  lemma TakesTurn(s: State, slot: nat, fd: nat)
    requires Inv(s) && slot < SLOTS && Shaped(s) && s.threads[slot] == Waiting(fd) && s.turn.None?
    ensures May(s, Slot(slot, GetsTurn))
    ensures var t := Next(s, Slot(slot, GetsTurn)); Inv(t) && Shaped(t) && t.threads[slot] == Handling(fd)
  {
    hide Inv;
    StepKeepsInv(s, Slot(slot, GetsTurn));
  }

  lemma FinishesCall(s: State, slot: nat, fd: nat)
    requires Inv(s) && slot < SLOTS && Shaped(s) && s.threads[slot] == Handling(fd)
    ensures May(s, Slot(slot, Handles))
    ensures var t := Next(s, Slot(slot, Handles)); Shaped(t) && t.threads[slot] == Serving(fd) && IsOpenClient(t, fd, slot)
  {
    StepKeepsInv(s, Slot(slot, Handles));
    var t := Next(s, Slot(slot, Handles));
    HoldsOpen(t, slot);
  }

  lemma HoldsOpen(s: State, slot: nat)
    requires Inv(s) && slot < SLOTS
    ensures Shaped(s) && (FdOf(s.threads[slot]).Some? ==> IsOpenClient(s, FdOf(s.threads[slot]).value, slot))
  {
    assert HeldInv(s, slot);
    if HeldBy(s, slot).Some? { assert TableInv(s, HeldBy(s, slot).value); }
  }

  // ----- A server that runs can always serve -----

  /** How many moves a slot is from reading on a connection. */
  function FromReading(t: Thread): nat {
    match t
    case Reading(_) => 0
    case Serving(_) => 1
    case Prepared(_) => 2
    case Handling(_) => 2
    case Accepted(_) => 3
    case Waiting(_) => 3
    case Polling => 4
    case Top => 5
    case Closing(_) => 6
    case Leaving(_) => 7
    case Exited => 8
  }

  /** From every state a run can reach with `m_running` set, every slot can go on to read on a connection. */
  lemma AnySlotCanServe(steps: seq<Step>, slot: nat) returns (more: seq<Step>)
    requires Allowed(START, steps) && After(START, steps).running && slot < SLOTS
    ensures var s := After(START, steps);
      && Allowed(s, more) && Shaped(After(s, more)) && After(s, more).running && After(s, more).threads[slot].Reading?
  {
    hide *;
    StartInv();
    RunKeepsInv(START, steps);
    more := ComesToRead(After(START, steps), slot);
  }

  lemma ComesToRead(s: State, slot: nat) returns (steps: seq<Step>)
    requires Inv(s) && s.running && slot < SLOTS
    ensures Allowed(s, steps) && Inv(After(s, steps)) && After(s, steps).running
    ensures Shaped(After(s, steps)) && After(s, steps).threads[slot].Reading?
    decreases if Shaped(s) then FromReading(s.threads[slot]) else 0
  {
    hide Inv, May, Next;
    IsShaped(s);
    if s.threads[slot].Reading? { return []; }
    if s.threads[slot].Waiting? && s.turn.Some? {
      var freeing, t := HasTurn(s, slot);
      steps := ComesToRead(t, slot);
      JoinsRuns(s, freeing[0], freeing[1..] + steps);
      JoinsRuns(Next(s, freeing[0]), freeing[1], steps);
      assert freeing[1..] == [freeing[1]];
      assert [freeing[0]] + ([freeing[1]] + steps) == freeing + steps;
      steps := freeing + steps;
    } else {
      var step := NearerReading(s, slot);
      steps := ComesToRead(Next(s, step), slot);
      JoinsRuns(s, step, steps);
      steps := [step] + steps;
    }
  }

  /** The slot whose turn it is finishes, and this slot takes the turn. */
  lemma HasTurn(s: State, slot: nat) returns (steps: seq<Step>, t: State)
    requires Inv(s) && s.running && slot < SLOTS && Shaped(s) && s.threads[slot].Waiting? && s.turn.Some?
    ensures |steps| == 2 && May(s, steps[0]) && May(Next(s, steps[0]), steps[1]) && t == Next(Next(s, steps[0]), steps[1])
    ensures Inv(t) && Shaped(t) && t.running && t.threads[slot].Handling?
  {
    hide Books;
    var other := s.turn.value;
    IsShaped(s);
    assert SlotInv(s, other) && SlotInv(s, slot);
    var first, second := Slot(other, Handles), Slot(slot, GetsTurn);
    StepKeepsInv(s, first);
    StepKeepsInv(Next(s, first), second);
    steps, t := [first, second], Next(Next(s, first), second);
  }

  lemma NearerReading(s: State, slot: nat) returns (step: Step)
    requires Inv(s) && s.running && slot < SLOTS && Shaped(s) && !s.threads[slot].Reading?
    requires s.threads[slot].Waiting? ==> s.turn.None?
    ensures May(s, step)
    ensures var t := Next(s, step);
      Inv(t) && Shaped(t) && t.running && FromReading(t.threads[slot]) < FromReading(s.threads[slot])
  {
    hide Inv;
    IsShaped(s);
    assert SlotInv(s, slot);
    var fd := FreeNumber(s.table.Keys);
    var move := match s.threads[slot]
      case Top => Checks
      case Polling => Accepts(fd)
      case Accepted(_) => Prepares
      case Prepared(_) => Publishes
      case Serving(_) => BeginsToRead
      case Waiting(_) => GetsTurn
      case Handling(_) => Handles
      case Leaving(_) => TakesBack
      case _ => ClosesOwn;
    step := Slot(slot, move);
    StepKeepsInv(s, step);
  }

  lemma FreeNumber(used: set<nat>) returns (n: nat)
    ensures n !in used
    ensures forall m <- used :: m < n
  {
    if used == {} { return 0; }
    var one :| one in used;
    n := FreeNumber(used - {one});
    if n <= one { n := one + 1; }
    forall m <- used
      ensures m < n
    {
      if m != one { assert m in used - {one}; }
    }
  }
}
