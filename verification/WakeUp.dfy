/** Who wakes the loop thread. Send signals it before its first pass and after its last one, and not in between: nothing
    is left in the ring once every call has returned, but a call longer than the ring can wait for ever. */
module WakeUp {
  import opened Bytes
  import opened ParamPool
  import opened PodCircularBuffer
  import opened SendPipeline

  /** Where a thread is: between calls, before the test at the head of the loop of Send, between that test and the
      write, or behind the loop with the second signal still to come. */
  datatype Phase = Outside | Testing | Writing | Leaving

  /** The pipeline, with the pending async signal and whether the loop thread is inside _send. */
  datatype World<P> = World(s: State<P>, phases: seq<Phase>, signal: bool, awake: bool)

  datatype Move<P> =
    | Enter(who: nat)               // the first signal of Send
    | Look(who: nat)                // the test at the head of its loop
    | Pass(who: nat)                // the write in the body
    | Leave(who: nat)               // its second signal
    | Wake                          // AsyncCB
    | Drain(step: Step<P>)          // Pop or Submit, inside _send
    | Rest                          // _send finds the ring empty
    | Completed(param: P, ok: bool) // OnSend
    | Received                      // OnRecv
    | UserCloses                    // Close

  ghost function Start<P>(queues: seq<seq<seq<Byte>>>, capacity: nat): World<P> {
    World(Init(queues, capacity), seq(|queues|, _ => Outside), false, false)
  }

  ghost predicate WellFormed<P>(w: World<P>) {
    InRange(w.s) && |w.phases| == |w.s.senders|
  }

  ghost predicate CanMove<P>(w: World<P>, move: Move<P>) {
    WellFormed(w) &&
    match move
    case Enter(i) => i < |w.phases| && w.phases[i] == Outside && Enabled(w.s, Test(i))
    case Look(i) => i < |w.phases| && w.phases[i] == Testing && w.s.senders[i].call < |w.s.senders[i].queue|
    case Pass(i) => i < |w.phases| && w.phases[i] == Writing && Enabled(w.s, Write(i))
    case Leave(i) => i < |w.phases| && w.phases[i] == Leaving
    case Wake => w.signal && !w.awake
    case Drain(step) => w.awake && (step.Pop? || step.Submit?) && Enabled(w.s, step)
    case Rest => w.awake && w.s.held == None && w.s.ring == []
    case Completed(p, _) => !w.awake && p in w.s.flight
    case Received => !w.awake
    case UserCloses => true
  }

  /** Send returns at once when there is nothing to send; its loop gives up when the user has closed the client, and
      then AsyncCB does not send either. */
  ghost function Moved<P>(w: World<P>, move: Move<P>): World<P>
    requires CanMove(w, move)
  {
    match move
    case Enter(i) =>
      if w.s.senders[i].queue[w.s.senders[i].call] == [] then w.(s := Next(Next(w.s, Test(i)), Write(i)))
      else w.(phases := w.phases[i := Testing], signal := true)
    case Look(i) =>
      if w.s.closed then w.(phases := w.phases[i := Leaving])
      else w.(s := Next(w.s, Test(i)), phases := w.phases[i := Writing])
    case Pass(i) =>
      var t := Next(w.s, Write(i));
      w.(s := t, phases := w.phases[i := if t.senders[i].call > w.s.senders[i].call then Leaving else Testing])
    case Leave(i) => w.(phases := w.phases[i := Outside], signal := true)
    case Wake => w.(signal := false, awake := !w.s.closed)
    case Drain(step) => w.(s := Next(w.s, step))
    case Rest => w.(awake := false)
    case Completed(p, ok) => w.(s := Next(w.s, Complete(p)), awake := ok)
    case Received => w.(awake := true)
    case UserCloses => w.(s := Next(w.s, CloseByUser), signal := true)
  }

  lemma OneStep<P>(s: State<P>, step: Step<P>) returns (steps: seq<Step<P>>)
    requires InRange(s) && Enabled(s, step)
    ensures CanRun(s, steps) && After(s, steps) == Next(s, step) && InRange(Next(s, step))
  {
    InRangeKept(s, step);
    RunSnoc(s, [], step);
    steps := [] + [step];
  }

  lemma MoveIsRun<P>(w: World<P>, move: Move<P>) returns (steps: seq<Step<P>>)
    requires CanMove(w, move)
    ensures WellFormed(Moved(w, move))
    ensures CanRun(w.s, steps) && Moved(w, move).s == After(w.s, steps)
  {
    steps := [];
    match move
    case Enter(i) =>
      if w.s.senders[i].queue[w.s.senders[i].call] == [] {
        var test := OneStep(w.s, Test(i));
        var write := OneStep(Next(w.s, Test(i)), Write(i));
        RunAppend(w.s, test, write);
        steps := test + write;
      }
    case Look(i) =>
      if !w.s.closed {
        steps := OneStep(w.s, Test(i));
      }
    case Pass(i) => steps := OneStep(w.s, Write(i));
    case Drain(step) => steps := OneStep(w.s, step);
    case Completed(p, _) => steps := OneStep(w.s, Complete(p));
    case UserCloses => steps := OneStep(w.s, CloseByUser);
    case _ =>
  }

  // ---- Whole runs ----

  ghost predicate CanGo<P>(w: World<P>, moves: seq<Move<P>>)
    decreases |moves|
  {
    moves == [] || (CanMove(w, moves[0]) && CanGo(Moved(w, moves[0]), moves[1..]))
  }

  ghost function Gone<P>(w: World<P>, moves: seq<Move<P>>): World<P>
    requires CanGo(w, moves)
    decreases |moves|
  {
    if moves == [] then w else Gone(Moved(w, moves[0]), moves[1..])
  }

  lemma GoFirst<P>(w: World<P>, move: Move<P>, rest: seq<Move<P>>)
    requires CanMove(w, move) && CanGo(Moved(w, move), rest)
    ensures CanGo(w, [move] + rest) && Gone(w, [move] + rest) == Gone(Moved(w, move), rest)
  {
    assert ([move] + rest)[1..] == rest;
  }

  lemma FirstAndRest<T>(a: seq<T>, b: seq<T>)
    requires a != []
    ensures a + b == [a[0]] + (a[1..] + b)
  {}

  lemma {:induction false} GoOn<P>(w: World<P>, moves: seq<Move<P>>, more: seq<Move<P>>)
    requires CanGo(w, moves) && CanGo(Gone(w, moves), more)
    ensures CanGo(w, moves + more) && Gone(w, moves + more) == Gone(Gone(w, moves), more)
    decreases |moves|
  {
    if moves == [] {
      assert moves + more == more;
    } else {
      FirstAndRest(moves, more);
      GoOn(Moved(w, moves[0]), moves[1..], more);
      GoFirst(w, moves[0], moves[1..] + more);
    }
  }

  /** The signal is raised by the two ends of a call and by a close, and taken back only by the loop thread; that wakes
      by the signal of an open client, by a receipt and by a completion without an error, and rests only when the ring
      is empty. */
  lemma WhoWakes<P>(w: World<P>, move: Move<P>)
    requires CanMove(w, move)
    ensures var v := Moved(w, move);
            && (v.signal && !w.signal ==> move.Leave? || move.UserCloses?
                                          || (move.Enter? && v.phases == w.phases[move.who := Testing]))
            && (move.Leave? || move.UserCloses? ==> v.signal)
            && (move.Enter? && w.s.senders[move.who].queue[w.s.senders[move.who].call] != [] ==> v.signal)
            && (w.signal && !v.signal <==> move == Wake)
            && (v.awake && !w.awake <==>
                (move == Wake && !w.s.closed) || move == Received || (move.Completed? && move.ok))
            && (w.awake && !v.awake <==> move == Rest)
            && (move == Rest ==> w.s.ring == [] && w.s.held == None)
  {}

  /** Whatever the threads, the loop and the signals do is a run of the pipeline, so that all that is proved of its runs
      holds here. */
  lemma {:induction false} GoIsRun<P>(w: World<P>, moves: seq<Move<P>>) returns (steps: seq<Step<P>>)
    requires WellFormed(w) && CanGo(w, moves)
    ensures WellFormed(Gone(w, moves))
    ensures CanRun(w.s, steps) && Gone(w, moves).s == After(w.s, steps)
    decreases |moves|
  {
    if moves == [] {
      return [];
    }
    var first := MoveIsRun(w, moves[0]);
    var rest := GoIsRun(Moved(w, moves[0]), moves[1..]);
    RunAppend(w.s, first, rest);
    steps := first + rest;
  }

  // ---- No wake-up is lost ----

  predicate Waiting(phase: Phase) {
    phase == Testing || phase == Writing
  }

  predicate Sending(phase: Phase) {
    Waiting(phase) || phase == Leaving
  }

  /** While there is something in the ring of an open client, the loop thread is draining it, is going to be woken, or
      some Send has not returned. */
  ghost predicate Attended<P>(w: World<P>) {
    w.s.closed || w.awake || w.signal || w.s.ring == [] || exists i :: 0 <= i < |w.phases| && Sending(w.phases[i])
  }

  lemma ThreadKeepsAttended<P>(w: World<P>, i: nat, move: Move<P>)
    requires CanMove(w, move) && (move == Look(i) || move == Pass(i))
    ensures Attended(Moved(w, move))
  {
    assert Sending(Moved(w, move).phases[i]);
  }

  lemma EmptyCallKeepsAttended<P>(w: World<P>, i: nat)
    requires CanMove(w, Enter(i)) && Attended(w) && w.s.senders[i].queue[w.s.senders[i].call] == []
    ensures Attended(Moved(w, Enter(i)))
  {
    var v := Moved(w, Enter(i));
    assert v.s.ring == w.s.ring && v.phases == w.phases;
  }

  lemma AttendedKept<P>(w: World<P>, move: Move<P>)
    requires CanMove(w, move) && Attended(w)
    ensures Attended(Moved(w, move))
  {
    match move
    case Enter(i) =>
      if w.s.senders[i].queue[w.s.senders[i].call] == [] {
        EmptyCallKeepsAttended(w, i);
      }
    case Look(i) => ThreadKeepsAttended(w, i, move);
    case Pass(i) => ThreadKeepsAttended(w, i, move);
    case Completed(p, ok) => assert Moved(w, move).phases == w.phases;
    case _ =>
  }

  lemma {:induction false} RunKeepsAttended<P>(w: World<P>, moves: seq<Move<P>>)
    requires CanGo(w, moves) && Attended(w)
    ensures Attended(Gone(w, moves))
    decreases |moves|
  {
    if moves == [] {
    } else {
      AttendedKept(w, moves[0]);
      RunKeepsAttended(Moved(w, moves[0]), moves[1..]);
    }
  }

  /** In every run, once every call has returned and the loop thread has nothing more to do, the ring is empty. */
  lemma NoLostWakeUp<P>(queues: seq<seq<seq<Byte>>>, capacity: nat, moves: seq<Move<P>>)
    requires CanGo(Start(queues, capacity), moves)
    ensures var w := Gone(Start(queues, capacity), moves);
            !w.s.closed && !w.awake && !w.signal && (forall i :: 0 <= i < |w.phases| ==> w.phases[i] == Outside) ==>
              w.s.ring == []
  {
    RunKeepsAttended(Start<P>(queues, capacity), moves);
  }

  // ---- Calls that wait for ever ----

  ghost predicate Behind(sender: Sender) {
    sender.call < |sender.queue| && sender.iret < |sender.queue[sender.call]|
  }

  /** The ring is full, every unfinished thread waits in the loop of Send for room, and nobody is going to make any. */
  ghost predicate Stuck<P>(w: World<P>) {
    && WellFormed(w)
    && !w.s.closed && !w.awake && !w.signal
    && w.s.held == None && w.s.flight == map[] && |w.s.ring| == w.s.capacity
    && (forall i :: 0 <= i < |w.phases| ==>
                      if Waiting(w.phases[i]) then Behind(w.s.senders[i])
                      else w.phases[i] == Outside && Done(w.s.senders[i]))
    && (exists i :: 0 <= i < |w.phases| && Waiting(w.phases[i]))
  }

  /** Neither the peer nor the user helps. */
  predicate Unaided<P>(move: Move<P>) {
    !move.Received? && !move.UserCloses?
  }

  predicate AllUnaided<P>(moves: seq<Move<P>>) {
    forall k :: 0 <= k < |moves| ==> Unaided(moves[k])
  }

  /** Then nothing changes any more: every test succeeds, every pass finds the ring full and writes nothing. */
  lemma StuckStays<P>(w: World<P>, move: Move<P>)
    requires Stuck(w) && CanMove(w, move) && Unaided(move)
    ensures var v := Moved(w, move); Stuck(v) && v.s == w.s.(tested := v.s.tested)
  {
    var v := Moved(w, move);
    match move
    case Look(i) =>
      assert Waiting(v.phases[i]);
    case Pass(i) =>
      assert v.s.senders == w.s.senders && v.s.ring == w.s.ring && v.s.log == w.s.log;
      assert Waiting(v.phases[i]);
    case _ =>
  }

  /** ... and no call that waits ever returns. */
  lemma {:induction false} StuckForEver<P>(w: World<P>, moves: seq<Move<P>>)
    requires Stuck(w) && CanGo(w, moves) && AllUnaided(moves)
    ensures var v := Gone(w, moves); Stuck(v) && v.s == w.s.(tested := v.s.tested) && !AllSent(v.s)
    decreases |moves|
  {
    if moves == [] {
      var i :| 0 <= i < |w.phases| && Waiting(w.phases[i]);
      assert !Done(w.s.senders[i]);
    } else {
      assert Unaided(moves[0]);
      StuckStays(w, moves[0]);
      StuckForEver(Moved(w, moves[0]), moves[1..]);
    }
  }

  predicate ShortCalls(queue: seq<seq<Byte>>, capacity: nat) {
    forall k :: 0 <= k < |queue| ==> |queue[k]| <= capacity
  }

  /** No call is longer than the ring. */
  predicate Short(queues: seq<seq<seq<Byte>>>, capacity: nat) {
    forall i :: 0 <= i < |queues| ==> ShortCalls(queues[i], capacity)
  }

  /** With short calls, the ring is empty whenever the loop thread sleeps, or a thread is on its way to wake it. */
  ghost predicate Alert<P>(w: World<P>) {
    && WellFormed(w)
    && (forall i :: 0 <= i < |w.s.senders| ==> ShortCalls(w.s.senders[i].queue, w.s.capacity))
    && (forall i :: 0 <= i < |w.phases| && !w.s.closed ==>
                      if Waiting(w.phases[i]) then Behind(w.s.senders[i]) else w.s.senders[i].iret == 0)
    && (|| w.s.closed || w.awake || w.signal || w.s.ring == []
        || exists i :: 0 <= i < |w.phases| && w.phases[i] == Leaving)
  }

  lemma EnterKeepsAlert<P>(w: World<P>, i: nat)
    requires CanMove(w, Enter(i)) && Alert(w)
    ensures Alert(Moved(w, Enter(i)))
  {
    var v := Moved(w, Enter(i));
    if w.s.senders[i].queue[w.s.senders[i].call] == [] {
      assert v.s.ring == w.s.ring && v.phases == w.phases;
    }
  }

  lemma LookKeepsAlert<P>(w: World<P>, i: nat)
    requires CanMove(w, Look(i)) && Alert(w)
    ensures Alert(Moved(w, Look(i)))
  {
    var v := Moved(w, Look(i));
    if j :| 0 <= j < |w.phases| && w.phases[j] == Leaving {
      assert v.phases[j] == Leaving;
    }
  }

  lemma PassKeepsAlert<P>(w: World<P>, i: nat)
    requires CanMove(w, Pass(i)) && Alert(w) && !w.s.closed
    ensures Alert(Moved(w, Pass(i)))
  {
    var v, sender := Moved(w, Pass(i)), w.s.senders[i];
    assert ShortCalls(sender.queue, w.s.capacity);
    if w.s.ring == [] {
      assert v.phases[i] == Leaving;
    } else if j :| 0 <= j < |w.phases| && w.phases[j] == Leaving {
      assert v.phases[j] == Leaving;
    }
  }

  lemma LeaveKeepsAlert<P>(w: World<P>, i: nat)
    requires CanMove(w, Leave(i)) && Alert(w)
    ensures Alert(Moved(w, Leave(i)))
  {}

  lemma LoopKeepsAlert<P>(w: World<P>, move: Move<P>)
    requires CanMove(w, move) && Alert(w)
    requires move.Wake? || move.Drain? || move.Rest? || move.Completed? || move.Received? || move.UserCloses?
    ensures Alert(Moved(w, move))
  {
    var v := Moved(w, move);
    assert v.phases == w.phases && v.s.senders == w.s.senders && v.s.capacity == w.s.capacity;
  }

  lemma AlertKept<P>(w: World<P>, move: Move<P>)
    requires CanMove(w, move) && Alert(w)
    ensures Alert(Moved(w, move))
  {
    match move
    case Pass(i) =>
      if !w.s.closed {
        PassKeepsAlert(w, i);
      }
    case Enter(i) => EnterKeepsAlert(w, i);
    case Look(i) => LookKeepsAlert(w, i);
    case Leave(i) => LeaveKeepsAlert(w, i);
    case _ => LoopKeepsAlert(w, move);
  }

  lemma {:induction false} RunKeepsAlert<P>(w: World<P>, moves: seq<Move<P>>)
    requires CanGo(w, moves) && Alert(w)
    ensures Alert(Gone(w, moves)) && Gone(w, moves).s.capacity == w.s.capacity
    decreases |moves|
  {
    if moves == [] {
    } else {
      AlertKept(w, moves[0]);
      RunKeepsAlert(Moved(w, moves[0]), moves[1..]);
    }
  }

  lemma AlertNotStuck<P>(w: World<P>)
    requires Alert(w)
    ensures !Stuck(w)
  {
    forall i | 0 <= i < |w.phases| && Waiting(w.phases[i])
      ensures w.s.closed || w.s.capacity > 0
    {
      assert ShortCalls(w.s.senders[i].queue, w.s.capacity);
    }
  }

  // ---- The run that gets stuck ----

  /** Nobody is sending, and everything written has been taken by libuv and completed. */
  ghost predicate Quiet<P>(w: World<P>) {
    && WellFormed(w)
    && !w.s.closed && !w.awake && !w.signal
    && w.s.held == None && w.s.flight == map[] && w.s.ring == []
    && (forall i :: 0 <= i < |w.phases| ==> w.phases[i] == Outside && w.s.senders[i].iret == 0)
  }

  /** v is what some of these moves make of w. */
  ghost predicate GoesTo<P>(w: World<P>, moves: seq<Move<P>>, v: World<P>) {
    CanGo(w, moves) && v == Gone(w, moves) && AllUnaided(moves)
  }

  lemma Then<P>(w: World<P>, moves: seq<Move<P>>, v: World<P>, more: seq<Move<P>>, u: World<P>)
    requires GoesTo(w, moves, v) && GoesTo(v, more, u)
    ensures GoesTo(w, moves + more, u)
  {
    GoOn(w, moves, more);
  }

  lemma One<P>(w: World<P>, move: Move<P>) returns (moves: seq<Move<P>>, v: World<P>)
    requires CanMove(w, move) && Unaided(move)
    ensures v == Moved(w, move) && GoesTo(w, moves, v)
  {
    moves, v := [move], Moved(w, move);
    assert moves[1..] == [];
    assert CanGo(v, []);
  }

  lemma Add<P>(w: World<P>, moves: seq<Move<P>>, v: World<P>, move: Move<P>) returns (more: seq<Move<P>>, u: World<P>)
    requires GoesTo(w, moves, v) && CanMove(v, move) && Unaided(move)
    ensures u == Moved(v, move) && GoesTo(w, more, u)
  {
    var last;
    last, u := One(v, move);
    Then(w, moves, v, last, u);
    more := moves + last;
  }

  /** What the loop thread and libuv leave alone. */
  ghost predicate SameThreads<P>(w: World<P>, v: World<P>) {
    && v.s.senders == w.s.senders && v.phases == w.phases && v.s.capacity == w.s.capacity && v.s.closed == w.s.closed
    && v.s.failures == w.s.failures
  }

  /** The loop thread, just woken, empties a ring that fits in one buffer. */
  lemma DrainOnce<P>(w: World<P>, spare: P) returns (moves: seq<Move<P>>, v: World<P>, p: P)
    requires WellFormed(w) && w.signal && !w.awake && !w.s.closed && w.s.held == None && w.s.flight == map[]
    requires 0 < |w.s.ring| <= BUFFER_SIZE
    ensures GoesTo(w, moves, v) && SameThreads(w, v)
    ensures !v.awake && !v.signal && v.s.held == None && v.s.flight.Keys == {p} && v.s.ring == []
  {
    p := Fetched(w.s.avail, spare);
    moves, v := One(w, Wake);
    moves, v := Add(w, moves, v, Drain(Pop(spare)));
    moves, v := Add(w, moves, v, Drain(Submit(true)));
    moves, v := Add(w, moves, v, Rest);
  }

  /** ... and libuv completes the write. */
  lemma DrainAndComplete<P>(w: World<P>, spare: P) returns (moves: seq<Move<P>>, v: World<P>)
    requires WellFormed(w) && w.signal && !w.awake && !w.s.closed && w.s.held == None && w.s.flight == map[]
    requires 0 < |w.s.ring| <= BUFFER_SIZE
    ensures GoesTo(w, moves, v) && SameThreads(w, v)
    ensures !v.awake && !v.signal && v.s.held == None && v.s.flight == map[] && v.s.ring == []
  {
    var p;
    moves, v, p := DrainOnce(w, spare);
    moves, v := Add(w, moves, v, Completed(p, true));
    moves, v := Add(w, moves, v, Rest);
  }

  /** What a thread's test and write leave alone. */
  ghost predicate SameLoop<P>(w: World<P>, v: World<P>) {
    && v.signal == w.signal && v.awake == w.awake && v.s.held == w.s.held && v.s.flight == w.s.flight
    && v.s.closed == w.s.closed && v.s.capacity == w.s.capacity && v.s.failures == w.s.failures
  }

  /** A thread's test and write, in an open client. */
  lemma LookAndPass<P>(w: World<P>, i: nat) returns (moves: seq<Move<P>>, v: World<P>)
    requires WellFormed(w) && !w.s.closed && i < |w.phases| && w.phases[i] == Testing && Behind(w.s.senders[i])
    ensures GoesTo(w, moves, v) && WellFormed(v) && SameLoop(w, v)
    ensures var sender := w.s.senders[i];
            var rest := sender.queue[sender.call][sender.iret..];
            var n := Min(|rest|, w.s.capacity - |w.s.ring|);
            && v.s.senders == w.s.senders[i := Advance(sender, n)] && v.s.ring == w.s.ring + rest[..n]
            && v.phases == w.phases[i := if n == |rest| then Leaving else Testing]
  {
    moves, v := One(w, Look(i));
    moves, v := Add(w, moves, v, Pass(i));
  }

  lemma WriteShort<P>(w: World<P>, i: nat) returns (moves: seq<Move<P>>, v: World<P>)
    requires Quiet(w) && i < |w.s.senders| && !Done(w.s.senders[i])
    requires 0 < |w.s.senders[i].queue[w.s.senders[i].call]| <= w.s.capacity
    ensures GoesTo(w, moves, v) && v.phases == w.phases && v.signal && !v.awake
    ensures var sender := w.s.senders[i];
            && v.s.senders == w.s.senders[i := Sender(sender.queue, sender.call + 1, 0)]
            && v.s.ring == sender.queue[sender.call]
            && v.s.held == None && v.s.flight == map[] && !v.s.closed && v.s.capacity == w.s.capacity && WellFormed(v)
            && v.s.failures == w.s.failures
  {
    var sender := w.s.senders[i];
    var call := sender.queue[sender.call];
    assert call[0..] == call && [] + call == call;
    var first, u := One(w, Enter(i));
    var rest;
    rest, v := LookAndPass(u, i);
    Then(w, first, u, rest, v);
    moves, v := Add(w, first + rest, v, Leave(i));
  }

  /** A call that fits goes through without help. */
  lemma ShortCallReturns<P>(w: World<P>, i: nat, spare: P) returns (moves: seq<Move<P>>, v: World<P>)
    requires Quiet(w) && w.s.capacity <= BUFFER_SIZE && i < |w.s.senders| && !Done(w.s.senders[i])
    requires |w.s.senders[i].queue[w.s.senders[i].call]| <= w.s.capacity
    ensures GoesTo(w, moves, v) && Quiet(v) && v.s.capacity == w.s.capacity && v.s.failures == w.s.failures
    ensures v.s.senders == w.s.senders[i := Sender(w.s.senders[i].queue, w.s.senders[i].call + 1, 0)]
  {
    if w.s.senders[i].queue[w.s.senders[i].call] == [] {
      moves, v := One(w, Enter(i));
    } else {
      var first, u := WriteShort(w, i);
      var rest;
      rest, v := DrainAndComplete(u, spare);
      Then(w, first, u, rest, v);
      moves := first + rest;
    }
  }

  /** Sender i has nothing left to send but from its first call that is too long on. */
  ghost predicate AtLongCall(sender: Sender, capacity: nat) {
    && sender.iret == 0 && sender.call <= |sender.queue|
    && ShortCalls(sender.queue[..sender.call], capacity)
    && (Done(sender) || |sender.queue[sender.call]| > capacity)
  }

  lemma {:induction false} SkipShort<P>(w: World<P>, i: nat, spare: P) returns (moves: seq<Move<P>>, v: World<P>)
    requires Quiet(w) && w.s.capacity <= BUFFER_SIZE && i < |w.s.senders|
    requires ShortCalls(w.s.senders[i].queue[..w.s.senders[i].call], w.s.capacity)
    ensures GoesTo(w, moves, v) && Quiet(v) && v.s.capacity == w.s.capacity && v.s.failures == w.s.failures
    ensures |v.s.senders| == |w.s.senders| && v.s.senders == w.s.senders[i := v.s.senders[i]]
    ensures v.s.senders[i].queue == w.s.senders[i].queue && AtLongCall(v.s.senders[i], w.s.capacity)
    decreases |w.s.senders[i].queue| - w.s.senders[i].call
  {
    var sender := w.s.senders[i];
    if AtLongCall(sender, w.s.capacity) {
      assert CanGo(w, []);
      return [], w;
    }
    var first, u := ShortCallReturns(w, i, spare);
    var rest;
    rest, v := SkipShort(u, i, spare);
    Then(w, first, u, rest, v);
    moves := first + rest;
  }

  lemma {:induction false} SkipAllShort<P>(w: World<P>, k: nat, spare: P) returns (moves: seq<Move<P>>, v: World<P>)
    requires Quiet(w) && w.s.capacity <= BUFFER_SIZE && k <= |w.s.senders|
    requires forall i :: 0 <= i < k ==> AtLongCall(w.s.senders[i], w.s.capacity)
    requires forall i :: k <= i < |w.s.senders| ==>
                           ShortCalls(w.s.senders[i].queue[..w.s.senders[i].call], w.s.capacity)
    ensures GoesTo(w, moves, v) && Quiet(v) && v.s.capacity == w.s.capacity && v.s.failures == w.s.failures
            && |v.s.senders| == |w.s.senders|
    ensures forall i :: 0 <= i < |v.s.senders| ==>
                          v.s.senders[i].queue == w.s.senders[i].queue && AtLongCall(v.s.senders[i], w.s.capacity)
    decreases |w.s.senders| - k
  {
    if k == |w.s.senders| {
      assert CanGo(w, []);
      return [], w;
    }
    var first, u := SkipShort(w, k, spare);
    var rest;
    rest, v := SkipAllShort(u, k + 1, spare);
    Then(w, first, u, rest, v);
    moves := first + rest;
  }

  /** Every sender from k on that is not done begins its call. */
  lemma {:induction false} EnterAll<P>(w: World<P>, k: nat) returns (moves: seq<Move<P>>, v: World<P>)
    requires WellFormed(w) && !w.s.closed && k <= |w.phases|
    requires forall i :: 0 <= i < |w.phases| ==> AtLongCall(w.s.senders[i], w.s.capacity)
    requires forall i :: k <= i < |w.phases| ==> w.phases[i] == Outside
    ensures WellFormed(v) && GoesTo(w, moves, v) && v.s == w.s && v.awake == w.awake
    ensures forall i :: 0 <= i < k ==> v.phases[i] == w.phases[i]
    ensures forall i :: k <= i < |w.phases| ==> v.phases[i] == if Done(w.s.senders[i]) then Outside else Testing
    ensures (exists i :: k <= i < |w.phases| && !Done(w.s.senders[i])) ==> v.signal
    ensures w.signal ==> v.signal
    decreases |w.phases| - k
  {
    if k == |w.phases| {
      assert CanGo(w, []);
      return [], w;
    }
    if Done(w.s.senders[k]) {
      moves, v := EnterAll(w, k + 1);
    } else {
      var first, u := One(w, Enter(k));
      var rest;
      rest, v := EnterAll(u, k + 1);
      Then(w, first, u, rest, v);
      moves := first + rest;
    }
  }

  /** All at a long call: the loop thread handles the signals before any of them writes, and then one fills the ring. */
  lemma GetStuck<P>(w: World<P>, i: nat) returns (moves: seq<Move<P>>, v: World<P>)
    requires Quiet(w) && i < |w.phases| && !Done(w.s.senders[i])
    requires forall j :: 0 <= j < |w.phases| ==> AtLongCall(w.s.senders[j], w.s.capacity)
    ensures GoesTo(w, moves, v) && Stuck(v)
  {
    moves, v := EnterAll(w, 0);
    assert v.signal && v.phases[i] == Testing;
    moves, v := Add(w, moves, v, Wake);
    moves, v := Add(w, moves, v, Rest);
    var call := v.s.senders[i].queue[v.s.senders[i].call];
    assert call[0..] == call;
    var last, u := LookAndPass(v, i);
    Then(w, moves, v, last, u);
    moves, v := moves + last, u;
    assert v.phases[i] == Testing;
  }

  /** Calls of these senders can wait for ever, on a client that nobody closes and that receives nothing, exactly when
      one of them is longer than the ring. */
  lemma StuckExactly<P>(queues: seq<seq<seq<Byte>>>, capacity: nat, spare: P)
    requires capacity <= BUFFER_SIZE
    ensures (exists moves :: CanGo(Start<P>(queues, capacity), moves) && AllUnaided(moves)
                             && Stuck(Gone(Start<P>(queues, capacity), moves)))
       <==> !Short(queues, capacity)
  {
    var w := Start<P>(queues, capacity);
    if Short(queues, capacity) {
      forall moves | CanGo(w, moves)
        ensures !Stuck(Gone(w, moves))
      {
        RunKeepsAlert(w, moves);
        AlertNotStuck(Gone(w, moves));
      }
    } else {
      var i :| 0 <= i < |queues| && !ShortCalls(queues[i], capacity);
      var first, u := SkipAllShort(w, 0, spare);
      assert u.s.senders[i].queue[..|queues[i]|] == queues[i];
      var rest, v := GetStuck(u, i);
      Then(w, first, u, rest, v);
    }
  }

  // ---- With short calls, every call returns ----

  /** What holds in every reachable world when all calls are short. */
  ghost predicate Sane<P>(w: World<P>) {
    && Alert(w) && Inv(w.s) && (w.s.held.Some? ==> w.awake)
    && forall i :: 0 <= i < |w.phases| && w.phases[i] == Writing ==> i in w.s.tested
  }

  lemma {:induction false} RunKeepsHands<P>(w: World<P>, moves: seq<Move<P>>)
    requires CanGo(w, moves) && (w.s.held.Some? ==> w.awake)
    requires forall i :: 0 <= i < |w.phases| && w.phases[i] == Writing ==> i in w.s.tested
    ensures var v := Gone(w, moves);
            && (v.s.held.Some? ==> v.awake)
            && forall i :: 0 <= i < |v.phases| && v.phases[i] == Writing ==> i in v.s.tested
    decreases |moves|
  {
    if moves == [] {
    } else {
      RunKeepsHands(Moved(w, moves[0]), moves[1..]);
    }
  }

  lemma GoKeepsSane<P>(w: World<P>, moves: seq<Move<P>>)
    requires Sane(w) && CanGo(w, moves)
    ensures Sane(Gone(w, moves)) && Gone(w, moves).s.capacity == w.s.capacity
    ensures forall i :: 0 <= i < |w.s.senders| && i < |Gone(w, moves).s.senders| ==>
                          Gone(w, moves).s.senders[i].queue == w.s.senders[i].queue
    ensures |Gone(w, moves).s.senders| == |w.s.senders|
  {
    RunKeepsAlert(w, moves);
    RunKeepsHands(w, moves);
    var steps := GoIsRun(w, moves);
    RunKeepsInv(w.s, steps);
  }

  /** The loop thread, awake with nothing in hand, empties a ring that fits in one buffer, and goes to sleep. */
  lemma EmptyAndRest<P>(w: World<P>, spare: P) returns (moves: seq<Move<P>>, v: World<P>)
    requires WellFormed(w) && w.awake && w.s.held == None && |w.s.ring| <= BUFFER_SIZE
    requires w.s.avail == [] ==> !Live(w.s, spare)
    ensures GoesTo(w, moves, v) && SameThreads(w, v)
    ensures !v.awake && v.signal == w.signal && v.s.held == None && v.s.ring == []
    ensures w.s.ring == [] ==> v.s == w.s
  {
    if w.s.ring == [] {
      moves, v := One(w, Rest);
    } else {
      moves, v := One(w, Drain(Pop(spare)));
      moves, v := Add(w, moves, v, Drain(Submit(true)));
      moves, v := Add(w, moves, v, Rest);
    }
  }

  lemma FallAsleep<P>(w: World<P>, spare: P) returns (moves: seq<Move<P>>, v: World<P>)
    requires Sane(w) && w.s.capacity <= BUFFER_SIZE && !Live(w.s, spare)
    ensures GoesTo(w, moves, v) && SameThreads(w, v) && !v.awake && v.s.held == None
  {
    if !w.awake {
      assert CanGo(w, []);
      return [], w;
    }
    if w.s.held == None {
      moves, v := EmptyAndRest(w, spare);
    } else {
      var first, u := One(w, Drain(Submit(true)));
      var rest;
      rest, v := EmptyAndRest(u, spare);
      Then(w, first, u, rest, v);
      moves := first + rest;
    }
  }

  lemma CompleteOne<P>(w: World<P>, p: P) returns (moves: seq<Move<P>>, v: World<P>)
    requires WellFormed(w) && !w.awake && w.s.held == None && |w.s.ring| <= BUFFER_SIZE && p in w.s.flight
    ensures GoesTo(w, moves, v) && SameThreads(w, v) && WellFormed(v)
    ensures !v.awake && v.signal == w.signal && v.s.held == None && v.s.ring == []
    ensures w.s.ring == [] ==> v.s.flight == w.s.flight - {p}
  {
    var first, u := One(w, Completed(p, true));
    var rest;
    rest, v := EmptyAndRest(u, p);
    Then(w, first, u, rest, v);
    moves := first + rest;
  }

  lemma {:induction false} CompleteEach<P>(w: World<P>) returns (moves: seq<Move<P>>, v: World<P>)
    requires WellFormed(w) && !w.awake && w.s.held == None && w.s.capacity <= BUFFER_SIZE
    ensures GoesTo(w, moves, v) && SameThreads(w, v)
    ensures !v.awake && v.signal == w.signal && v.s.held == None && v.s.flight == map[]
    ensures w.s.ring == [] ==> v.s.ring == []
    decreases |w.s.ring|, |w.s.flight.Keys|
  {
    if w.s.flight == map[] {
      assert CanGo(w, []);
      return [], w;
    }
    var p :| p in w.s.flight;
    var first, u := CompleteOne(w, p);
    if w.s.ring == [] {
      assert u.s.flight.Keys == w.s.flight.Keys - {p};
    }
    var rest;
    rest, v := CompleteEach(u);
    Then(w, first, u, rest, v);
    moves := first + rest;
  }

  /** The loop thread and libuv are done, and nobody has signalled. */
  ghost predicate Still<P>(w: World<P>) {
    && WellFormed(w) && !w.s.closed && !w.awake && !w.signal
    && w.s.held == None && w.s.flight == map[] && w.s.ring == []
  }

  /** The loop thread handles a pending signal. */
  lemma Handle<P>(w: World<P>, spare: P) returns (moves: seq<Move<P>>, v: World<P>)
    requires WellFormed(w) && !w.s.closed && !w.awake && w.signal && w.s.held == None && w.s.flight == map[]
    requires |w.s.ring| <= BUFFER_SIZE
    ensures GoesTo(w, moves, v) && SameThreads(w, v) && Still(v)
  {
    if w.s.ring == [] {
      moves, v := One(w, Wake);
      moves, v := Add(w, moves, v, Rest);
    } else {
      moves, v := DrainAndComplete(w, spare);
    }
  }

  lemma ToLeaving<P>(w: World<P>, i: nat) returns (moves: seq<Move<P>>, v: World<P>)
    requires Sane(w) && Still(w) && i < |w.phases| && w.phases[i] != Outside
    ensures GoesTo(w, moves, v) && WellFormed(v) && SameLoop(w, v) && v.phases == w.phases[i := Leaving]
  {
    var sender := w.s.senders[i];
    assert ShortCalls(sender.queue, w.s.capacity);
    if w.phases[i] == Leaving {
      assert CanGo(w, []) && w.phases == w.phases[i := Leaving];
      return [], w;
    }
    if w.phases[i] == Testing {
      moves, v := LookAndPass(w, i);
    } else {
      moves, v := One(w, Pass(i));
    }
  }

  /** A thread in the middle of a call returns. */
  lemma ReturnOne<P>(w: World<P>, i: nat, spare: P) returns (moves: seq<Move<P>>, v: World<P>)
    requires Sane(w) && Still(w) && w.s.capacity <= BUFFER_SIZE && i < |w.phases| && w.phases[i] != Outside
    ensures GoesTo(w, moves, v) && Still(v) && v.phases == w.phases[i := Outside] && v.s.failures == w.s.failures
  {
    var u;
    moves, u := ToLeaving(w, i);
    moves, u := Add(w, moves, u, Leave(i));
    var rest;
    rest, v := Handle(u, spare);
    Then(w, moves, u, rest, v);
    moves := moves + rest;
  }

  lemma {:induction false} ReturnAll<P>(w: World<P>, k: nat, spare: P) returns (moves: seq<Move<P>>, v: World<P>)
    requires Sane(w) && Still(w) && w.s.capacity <= BUFFER_SIZE && k <= |w.phases|
    requires forall i :: 0 <= i < k ==> w.phases[i] == Outside
    ensures GoesTo(w, moves, v) && Still(v) && v.s.failures == w.s.failures
    ensures forall i :: 0 <= i < |v.phases| ==> v.phases[i] == Outside
    decreases |w.phases| - k
  {
    if k == |w.phases| {
      assert CanGo(w, []);
      return [], w;
    }
    if w.phases[k] == Outside {
      moves, v := ReturnAll(w, k + 1, spare);
    } else {
      var first, u := ReturnOne(w, k, spare);
      GoKeepsSane(w, first);
      var rest;
      rest, v := ReturnAll(u, k + 1, spare);
      Then(w, first, u, rest, v);
      moves := first + rest;
    }
  }

  /** From any sane world the loop thread and libuv come to rest. */
  lemma ComeToRest<P>(w: World<P>, spare: P) returns (moves: seq<Move<P>>, v: World<P>)
    requires Sane(w) && !w.s.closed && w.s.capacity <= BUFFER_SIZE && !Live(w.s, spare)
    ensures GoesTo(w, moves, v) && Still(v) && v.s.failures == w.s.failures
  {
    var first, a := FallAsleep(w, spare);
    GoKeepsSane(w, first);
    var second, b := CompleteEach(a);
    Then(w, first, a, second, b);
    moves, v := first + second, b;
    GoKeepsSane(w, moves);
    if !v.signal && v.s.ring != [] {
      var i :| 0 <= i < |v.phases| && v.phases[i] == Leaving;
      moves, v := Add(w, moves, v, Leave(i));
    }
    if v.signal {
      var third, c := Handle(v, spare);
      Then(w, moves, v, third, c);
      moves, v := moves + third, c;
    }
  }

  /** ... and every call that has been begun returns. */
  lemma ToQuiet<P>(w: World<P>, spare: P) returns (moves: seq<Move<P>>, v: World<P>)
    requires Sane(w) && !w.s.closed && w.s.capacity <= BUFFER_SIZE && !Live(w.s, spare)
    ensures GoesTo(w, moves, v) && Quiet(v) && Sane(v) && v.s.capacity == w.s.capacity && v.s.failures == w.s.failures
  {
    var first, a := ComeToRest(w, spare);
    GoKeepsSane(w, first);
    var second;
    second, v := ReturnAll(a, 0, spare);
    GoKeepsSane(a, second);
    Then(w, first, a, second, v);
    moves := first + second;
  }

  /** ... and so does every call still to come. */
  lemma FinishShort<P>(w: World<P>, spare: P) returns (moves: seq<Move<P>>, v: World<P>)
    requires Quiet(w) && Sane(w) && w.s.capacity <= BUFFER_SIZE
    ensures GoesTo(w, moves, v) && Quiet(v) && AllSent(v.s) && v.s.failures == w.s.failures
  {
    forall i | 0 <= i < |w.s.senders|
      ensures ShortCalls(w.s.senders[i].queue[..w.s.senders[i].call], w.s.capacity)
    {
      assert ShortCalls(w.s.senders[i].queue, w.s.capacity);
    }
    moves, v := SkipAllShort(w, 0, spare);
    forall i | 0 <= i < |v.s.senders|
      ensures Done(v.s.senders[i])
    {
      assert AtLongCall(v.s.senders[i], w.s.capacity);
      assert ShortCalls(w.s.senders[i].queue, w.s.capacity);
    }
  }

  lemma FromSane<P>(w: World<P>, spare: P) returns (moves: seq<Move<P>>, v: World<P>)
    requires Sane(w) && !w.s.closed && w.s.capacity <= BUFFER_SIZE && !Live(w.s, spare)
    ensures GoesTo(w, moves, v) && Quiet(v) && AllSent(v.s) && v.s.failures == w.s.failures
  {
    var first, u := ToQuiet(w, spare);
    var rest;
    rest, v := FinishShort(u, spare);
    Then(w, first, u, rest, v);
    moves := first + rest;
  }

  lemma StartIsSane<P>(queues: seq<seq<seq<Byte>>>, capacity: nat)
    requires Short(queues, capacity)
    ensures Sane(Start<P>(queues, capacity))
  {
    InitInv<P>(queues, capacity);
  }

  /** With short calls, from every reachable world of an open client every call can still return and every byte reach
      libuv, without help from the peer and without a failure. `spare` is a param that malloc could return. */
  lemma EveryCallReturns<P>(queues: seq<seq<seq<Byte>>>, capacity: nat, moves: seq<Move<P>>, spare: P)
      returns (more: seq<Move<P>>, v: World<P>)
    requires Short(queues, capacity) && capacity <= BUFFER_SIZE && CanGo(Start(queues, capacity), moves)
    requires !Gone(Start(queues, capacity), moves).s.closed && !Live(Gone(Start(queues, capacity), moves).s, spare)
    ensures GoesTo(Gone(Start(queues, capacity), moves), more, v)
    ensures Quiet(v) && AllSent(v.s) && v.s.failures == Gone(Start(queues, capacity), moves).s.failures
  {
    StartIsSane<P>(queues, capacity);
    GoKeepsSane(Start<P>(queues, capacity), moves);
    more, v := FromSane(Gone(Start<P>(queues, capacity), moves), spare);
  }
}
