/** The client's send side as a transition system: any number of threads inside Send, the ring, and the loop thread that
    drains it into pooled write params. Every section under a mutex, and every libuv call, is one step. */
module SendPipeline {
  import opened Bytes
  import opened ParamPool
  import opened PodCircularBuffer

  /** A thread that sends queue[0], queue[1], ...; `iret` bytes of queue[call] are in the ring already. */
  datatype Sender = Sender(queue: seq<seq<Byte>>, call: nat, iret: nat)

  /** What one pass through the loop of Send wrote; `last` when that was the rest of the call. */
  datatype Piece = Piece(who: nat, bytes: seq<Byte>, last: bool)

  /** `tested` are the senders that have found the client open and not yet written; `mem` is the memory behind each
      write param; `flight` what each submitted param held when it was submitted. */
  datatype State<P> = State(
    senders: seq<Sender>,
    closed: bool,
    tested: set<nat>,
    capacity: nat,
    ring: seq<Byte>,
    avail: seq<P>,
    held: Option<P>,
    flight: map<P, seq<Byte>>,
    mem: map<P, seq<Byte>>,
    chunks: seq<seq<Byte>>,
    sent: seq<seq<Byte>>,
    failures: nat,
    log: seq<Piece>)

  datatype Step<P> =
    | Test(who: nat)      // the test at the head of the loop of Send
    | Write(who: nat)     // the locked write in its body
    | CloseByUser
    | Pop(spare: P)       // the locked half of a pass through the loop of _send
    | Submit(ok: bool)    // the uv_write that follows it
    | Complete(param: P)  // OnSend, with either status

  function Init<P>(queues: seq<seq<seq<Byte>>>, capacity: nat): State<P> {
    State(seq(|queues|, i requires 0 <= i < |queues| => Sender(queues[i], 0, 0)),
          false, {}, capacity, [], [], None, map[], map[], [], [], 0, [])
  }

  ghost predicate Live<P>(s: State<P>, p: P) {
    p in s.avail || s.held == Some(p) || p in s.flight
  }

  ghost predicate Enabled<P>(s: State<P>, step: Step<P>) {
    match step
    case Test(i) => i < |s.senders| && s.senders[i].call < |s.senders[i].queue| && !s.closed
    case Write(i) => i < |s.senders| && s.senders[i].call < |s.senders[i].queue| && i in s.tested
    case CloseByUser => true
    case Pop(spare) => s.held == None && s.ring != [] && (s.avail == [] ==> !Live(s, spare))
    case Submit(_) => s.held.Some? && s.held.value in s.mem
    case Complete(p) => p in s.flight
  }

  /** The piece the next pass of Send writes: as much of the rest as the ring has room for. */
  function NextPiece(sender: Sender, i: nat, capacity: nat, ring: seq<Byte>): (p: Piece)
    requires sender.call < |sender.queue| && sender.iret <= |sender.queue[sender.call]| && |ring| <= capacity
    ensures p.bytes <= sender.queue[sender.call][sender.iret..]
  {
    var bytes := Accepted(capacity, ring, sender.queue[sender.call][sender.iret..]);
    Piece(i, bytes, sender.iret + |bytes| == |sender.queue[sender.call]|)
  }

  /** A pass that finds the ring full writes nothing. */
  function Logged(log: seq<Piece>, piece: Piece): seq<Piece> {
    if piece.bytes == [] && !piece.last then log else log + [piece]
  }

  function Advance(sender: Sender, n: nat): Sender
    requires sender.call < |sender.queue|
  {
    if sender.iret + n >= |sender.queue[sender.call]| then Sender(sender.queue, sender.call + 1, 0)
    else Sender(sender.queue, sender.call, sender.iret + n)
  }

  function PoppedLen(ring: seq<Byte>): nat {
    Min(|ring|, BUFFER_SIZE)
  }

  /** The front of the ring goes into p, and p into the loop thread's hands. */
  function Popped<P>(s: State<P>, p: P): State<P> {
    var n := PoppedLen(s.ring);
    s.(avail := AfterFetch(s.avail),
       held := Some(p),
       mem := s.mem[p := s.ring[..n]],
       ring := s.ring[n..],
       chunks := s.chunks + [s.ring[..n]])
  }

  predicate CursorInRange(sender: Sender) {
    && sender.call <= |sender.queue|
    && (if sender.call < |sender.queue| then sender.iret <= |sender.queue[sender.call]| else sender.iret == 0)
  }

  /** Cursors are inside their calls, and the ring within its capacity. */
  ghost predicate InRange<P>(s: State<P>) {
    && |s.ring| <= s.capacity
    && forall i :: 0 <= i < |s.senders| ==> CursorInRange(s.senders[i])
  }

  ghost function Next<P>(s: State<P>, step: Step<P>): State<P>
    requires Enabled(s, step) && InRange(s)
  {
    match step
    case Test(i) => s.(tested := s.tested + {i})
    case Write(i) =>
      var piece := NextPiece(s.senders[i], i, s.capacity, s.ring);
      s.(senders := s.senders[i := Advance(s.senders[i], |piece.bytes|)],
         tested := s.tested - {i},
         ring := s.ring + piece.bytes,
         log := Logged(s.log, piece))
    case CloseByUser => s.(closed := true)
    case Pop(spare) => Popped(s, Fetched(s.avail, spare))
    case Submit(ok) =>
      var p := s.held.value;
      if ok then s.(held := None, flight := s.flight[p := s.mem[p]], sent := s.sent + [s.mem[p]])
      else s.(held := None, avail := AfterRecycle(s.avail, p), failures := s.failures + 1)
    case Complete(p) =>
      s.(flight := s.flight - {p}, avail := AfterRecycle(s.avail, p))
  }

  // ---- What every step keeps ----

  /** Every write param is in one place: the pool, the loop thread's hands, or libuv's; anything else is released. */
  ghost predicate Owned<P>(s: State<P>) {
    && IsPool(s.avail)
    && (forall p :: p in s.avail ==> p !in s.flight)
    && (s.held.Some? ==> s.held.value !in s.avail && s.held.value !in s.flight)
  }

  /** A submitted buffer still holds what was submitted; the one in hand holds the chunk just popped. */
  ghost predicate Undisturbed<P>(s: State<P>) {
    && (forall p :: p in s.flight ==> p in s.mem && s.mem[p] == s.flight[p])
    && (s.held.Some? ==> s.held.value in s.mem && s.chunks != [] && s.mem[s.held.value] == s.chunks[|s.chunks| - 1])
  }

  /** Everything submitted, plus the chunk in hand, is everything popped, as long as no uv_write has failed. */
  ghost predicate NothingLost<P>(s: State<P>) {
    && |s.chunks| == |s.sent| + s.failures + (if s.held.Some? then 1 else 0)
    && (s.failures == 0 ==> s.sent == s.chunks[..|s.sent|])
    && (forall k :: 0 <= k < |s.chunks| ==> 0 < |s.chunks[k]| <= BUFFER_SIZE)
  }

  function BytesOf(log: seq<Piece>): seq<Byte> {
    if log == [] then [] else BytesOf(log[..|log| - 1]) + log[|log| - 1].bytes
  }

  /** The bytes of each of i's pieces, in order. */
  function PiecesOf(log: seq<Piece>, i: nat): seq<seq<Byte>> {
    if log == [] then []
    else PiecesOf(log[..|log| - 1], i) + (if log[|log| - 1].who == i then [log[|log| - 1].bytes] else [])
  }

  /** What a sender has put into the ring so far. */
  function Written(sender: Sender): seq<Byte>
    requires CursorInRange(sender)
  {
    Flatten(sender.queue[..sender.call]) +
    (if sender.call < |sender.queue| then sender.queue[sender.call][..sender.iret] else [])
  }

  /** Popped bytes followed by the ring are the logged pieces, and those of each sender are what it has written, in its
      own order. */
  ghost predicate Interleaved<P>(s: State<P>)
    requires InRange(s)
  {
    && Flatten(s.chunks) + s.ring == BytesOf(s.log)
    && (forall k :: 0 <= k < |s.log| ==> s.log[k].who < |s.senders|)
    && (forall i :: 0 <= i < |s.senders| ==> Flatten(PiecesOf(s.log, i)) == Written(s.senders[i]))
  }

  /** The last piece in the log has not finished its call. */
  predicate Unfinished(log: seq<Piece>) {
    log != [] && !log[|log| - 1].last
  }

  /** Nothing came between the pieces of any call. */
  predicate Unbroken(log: seq<Piece>) {
    log == [] ||
    (var p, x := log[..|log| - 1], log[|log| - 1]; Unbroken(p) && (Unfinished(p) ==> p[|p| - 1].who == x.who))
  }

  /** One more piece; it is put together with the last one when that has to go on. */
  function Joined(m: seq<Piece>, x: Piece, goesOn: bool): seq<Piece>
    requires goesOn ==> m != []
  {
    if goesOn then m[..|m| - 1] + [Piece(x.who, m[|m| - 1].bytes + x.bytes, x.last)] else m + [x]
  }

  /** The log with the pieces of each call put together. */
  function Merged(log: seq<Piece>): (m: seq<Piece>)
    ensures m == [] <==> log == []
    ensures m != [] ==> m[|m| - 1].last == log[|log| - 1].last && m[|m| - 1].who == log[|log| - 1].who
  {
    if log == [] then []
    else
      var p, x := log[..|log| - 1], log[|log| - 1];
      Joined(Merged(p), x, Unfinished(p))
  }

  /** The calls a sender has begun, the last of them perhaps not complete. */
  function Begun(sender: Sender): seq<seq<Byte>>
    requires CursorInRange(sender)
  {
    sender.queue[..sender.call] + (if sender.iret > 0 then [sender.queue[sender.call][..sender.iret]] else [])
  }

  /** As long as nothing comes between the pieces of any call, each sender's merged pieces are its calls, and only the
      sender of the last piece can be in the middle of one. */
  ghost predicate CallsInOrder<P>(s: State<P>)
    requires InRange(s)
  {
    Unbroken(s.log) ==>
      && (forall i :: 0 <= i < |s.senders| ==> PiecesOf(Merged(s.log), i) == Begun(s.senders[i]))
      && (forall i :: 0 <= i < |s.senders| ==>
                        (s.senders[i].iret > 0 <==> Unfinished(s.log) && s.log[|s.log| - 1].who == i))
  }

  ghost predicate Inv<P>(s: State<P>) {
    InRange(s) && Owned(s) && Undisturbed(s) && NothingLost(s) && Interleaved(s) && CallsInOrder(s)
  }

  // ---- The proofs, one predicate at a time ----

  lemma InitInv<P>(queues: seq<seq<seq<Byte>>>, capacity: nat)
    ensures Inv(Init<P>(queues, capacity))
  {
    var s := Init<P>(queues, capacity);
    assert InRange(s) && Owned(s) && Undisturbed(s) && NothingLost(s);
    assert Merged(s.log) == [];
  }

  /** A pass writes as much of the rest of the call as the ring has room for, and moves the cursor by as much. */
  lemma WriteMeans<P>(s: State<P>, i: nat)
    requires Enabled(s, Write(i)) && InRange(s)
    ensures var sender, t := s.senders[i], Next(s, Write(i));
            var call := sender.queue[sender.call];
            var to := sender.iret + Min(|call| - sender.iret, s.capacity - |s.ring|);
            && NextPiece(sender, i, s.capacity, s.ring).bytes == call[sender.iret..to]
            && t.ring == s.ring + call[sender.iret..to]
            && t.senders == s.senders[
                 i := if to == |call| then Sender(sender.queue, sender.call + 1, 0)
                      else Sender(sender.queue, sender.call, to)]
  {}

  lemma InRangeKept<P>(s: State<P>, step: Step<P>)
    requires Enabled(s, step) && InRange(s)
    ensures InRange(Next(s, step))
  {}

  lemma OwnedKept<P>(s: State<P>, step: Step<P>)
    requires Enabled(s, step) && InRange(s) && Owned(s)
    ensures Owned(Next(s, step))
  {
    match step
    case Pop(spare) => FetchKeeps(s.avail, spare);
    case Submit(ok) => RecycleKeeps(s.avail, s.held.value);
    case Complete(p) => RecycleKeeps(s.avail, p);
    case _ =>
  }

  /** As much of the invariant as the threads of the client themselves rely on. */
  ghost predicate Sound<P>(s: State<P>) {
    InRange(s) && Owned(s)
  }

  lemma SoundKept<P>(s: State<P>, step: Step<P>)
    requires Enabled(s, step) && Sound(s)
    ensures Sound(Next(s, step))
  {
    InRangeKept(s, step);
    OwnedKept(s, step);
  }

  /** The params with libuv or in the loop thread's hands: their buffers are spoken for. */
  ghost function Busy<P>(s: State<P>): set<P> {
    s.flight.Keys + (if s.held.Some? then {s.held.value} else {})
  }

  ghost function Params<P>(s: State<P>): set<P> {
    (set p | p in s.avail) + Busy(s)
  }

  lemma PoppedKeeps<P>(s: State<P>, p: P)
    requires Sound(s) && Enabled(s, Pop(p)) && p == Fetched(s.avail, p)
    ensures Popped(s, p) == Next(s, Pop(p)) && Sound(Popped(s, p))
    ensures Busy(Popped(s, p)) == Busy(s) + {p} && Params(Popped(s, p)) <= Params(s) + {p}
    ensures p !in Busy(s)
  {
    SoundKept(s, Pop(p));
    FetchKeeps(s.avail, p);
  }

  /** A submission or a completion. */
  lemma ReleaseKeeps<P>(s: State<P>, step: Step<P>)
    requires Sound(s) && Enabled(s, step) && (step.Submit? || step.Complete?)
    ensures var t := Next(s, step);
            && Sound(t) && Busy(t) <= Busy(s) && Params(t) <= Params(s)
            && t.ring == s.ring && t.capacity == s.capacity && t.mem == s.mem && t.closed == s.closed
  {
    SoundKept(s, step);
  }

  lemma UndisturbedKept<P>(s: State<P>, step: Step<P>)
    requires Enabled(s, step) && InRange(s) && Owned(s) && Undisturbed(s)
    ensures Undisturbed(Next(s, step))
  {
    if step.Pop? {
      FetchKeeps(s.avail, step.spare);
    }
  }

  lemma NothingLostKept<P>(s: State<P>, step: Step<P>)
    requires Enabled(s, step) && InRange(s) && Undisturbed(s) && NothingLost(s)
    ensures NothingLost(Next(s, step))
  {
    var t := Next(s, step);
    if step.Submit? && step.ok && s.failures == 0 {
      assert t.chunks[..|t.sent|] == s.chunks[..|s.sent|] + [s.chunks[|s.sent|]];
    }
    if step.Pop? && s.failures == 0 {
      assert t.chunks[..|t.sent|] == s.chunks[..|s.sent|];
    }
  }

  lemma LoggedBytes(log: seq<Piece>, piece: Piece)
    ensures BytesOf(Logged(log, piece)) == BytesOf(log) + piece.bytes
  {
    assert (log + [piece])[..|log|] == log;
  }

  lemma LoggedPieces(log: seq<Piece>, piece: Piece, i: nat)
    ensures Flatten(PiecesOf(Logged(log, piece), i)) ==
              Flatten(PiecesOf(log, i)) + (if piece.who == i then piece.bytes else [])
  {
    assert (log + [piece])[..|log|] == log;
    if piece.who == i {
      FlattenSnoc(PiecesOf(log, i), piece.bytes);
    }
    assert PiecesOf(log, i) + [] == PiecesOf(log, i);
    assert Flatten(PiecesOf(log, i)) + [] == Flatten(PiecesOf(log, i));
    if piece.bytes == [] {
      assert Flatten(PiecesOf(log, i)) + piece.bytes == Flatten(PiecesOf(log, i));
    }
  }

  lemma AdvanceWritten(sender: Sender, bytes: seq<Byte>)
    requires CursorInRange(sender) && sender.call < |sender.queue|
    requires bytes <= sender.queue[sender.call][sender.iret..]
    ensures CursorInRange(Advance(sender, |bytes|))
    ensures Written(Advance(sender, |bytes|)) == Written(sender) + bytes
  {
    var q, c, r := sender.queue, sender.call, sender.iret;
    assert q[c][..r + |bytes|] == q[c][..r] + bytes;
    if r + |bytes| >= |q[c]| {
      assert q[..c + 1] == q[..c] + [q[c]];
      FlattenSnoc(q[..c], q[c]);
      assert q[c][..r + |bytes|] == q[c];
    }
  }

  lemma PopConserves<P>(s: State<P>, spare: P)
    requires Enabled(s, Pop(spare)) && InRange(s)
    ensures var t := Next(s, Pop(spare)); Flatten(t.chunks) + t.ring == Flatten(s.chunks) + s.ring
  {
    var n := PoppedLen(s.ring);
    FlattenSnoc(s.chunks, s.ring[..n]);
    assert s.ring == s.ring[..n] + s.ring[n..];
  }

  lemma WriteInterleaved<P>(s: State<P>, i: nat)
    requires Enabled(s, Write(i)) && InRange(s) && Interleaved(s)
    ensures InRange(Next(s, Write(i))) && Interleaved(Next(s, Write(i)))
  {
    var t, piece := Next(s, Write(i)), NextPiece(s.senders[i], i, s.capacity, s.ring);
    LoggedBytes(s.log, piece);
    assert Flatten(s.chunks) + (s.ring + piece.bytes) == Flatten(s.chunks) + s.ring + piece.bytes;
    AdvanceWritten(s.senders[i], piece.bytes);
    forall j | 0 <= j < |t.senders|
      ensures Flatten(PiecesOf(t.log, j)) == Written(t.senders[j])
    {
      LoggedPieces(s.log, piece, j);
    }
  }

  lemma InterleavedKept<P>(s: State<P>, step: Step<P>)
    requires Enabled(s, step) && InRange(s) && Interleaved(s)
    ensures InRange(Next(s, step)) && Interleaved(Next(s, step))
  {
    InRangeKept(s, step);
    match step
    case Write(i) => WriteInterleaved(s, i);
    case Pop(spare) => PopConserves(s, spare);
    case _ =>
  }

  /** One more piece either begins a call or goes on with the last one. */
  lemma MergedPieces(log: seq<Piece>, x: Piece, i: nat)
    requires Unfinished(log) ==> log[|log| - 1].who == x.who
    ensures var old_, new_ := PiecesOf(Merged(log), i), PiecesOf(Merged(log + [x]), i);
            if x.who != i then new_ == old_
            else if Unfinished(log) then old_ != [] && new_ == old_[..|old_| - 1] + [old_[|old_| - 1] + x.bytes]
            else new_ == old_ + [x.bytes]
  {
    var m, n := Merged(log), Merged(log + [x]);
    assert (log + [x])[..|log|] == log;
    assert n[..|n| - 1] == if Unfinished(log) then m[..|m| - 1] else m;
  }

  lemma BegunAdvance(sender: Sender, bytes: seq<Byte>)
    requires CursorInRange(sender) && sender.call < |sender.queue|
    requires bytes <= sender.queue[sender.call][sender.iret..]
    requires bytes != [] || sender.iret == |sender.queue[sender.call]|
    ensures var a, b := Begun(sender), Advance(sender, |bytes|);
            && CursorInRange(b) && (b.iret > 0 <==> sender.iret + |bytes| < |sender.queue[sender.call]|)
            && (sender.iret > 0 ==> Begun(b) == a[..|a| - 1] + [a[|a| - 1] + bytes])
            && (sender.iret == 0 ==> Begun(b) == a + [bytes])
  {
    var q, c, r := sender.queue, sender.call, sender.iret;
    var b := Advance(sender, |bytes|);
    assert q[c][..r + |bytes|] == q[c][..r] + bytes;
    assert Begun(b) == q[..c] + [q[c][..r] + bytes] by {
      if r + |bytes| >= |q[c]| {
        assert q[..c + 1] == q[..c] + [q[c]];
        assert q[c][..r + |bytes|] == q[c];
      }
    }
    if r == 0 {
      assert Begun(sender) == q[..c];
      assert q[c][..0] + bytes == bytes;
    } else {
      assert Begun(sender)[..c] == q[..c];
    }
  }

  /** The logged pieces of one sender, which is `i`'s in case j == i, after one more piece of i's. */
  lemma PieceOfOne(log: seq<Piece>, sender: Sender, j: nat, i: nat, piece: Piece)
    requires CursorInRange(sender) && PiecesOf(Merged(log), j) == Begun(sender)
    requires sender.iret > 0 <==> Unfinished(log) && log[|log| - 1].who == j
    requires piece.who == i && (Unfinished(log) ==> log[|log| - 1].who == i)
    requires j == i ==>
               && sender.call < |sender.queue| && piece.bytes <= sender.queue[sender.call][sender.iret..]
               && piece.last == (sender.iret + |piece.bytes| == |sender.queue[sender.call]|)
               && (piece.bytes != [] || piece.last)
    ensures var next := if j == i then Advance(sender, |piece.bytes|) else sender;
            && CursorInRange(next) && PiecesOf(Merged(log + [piece]), j) == Begun(next)
            && (next.iret > 0 <==> !piece.last && j == i)
  {
    MergedPieces(log, piece, j);
    if j == i {
      BegunAdvance(sender, piece.bytes);
    }
  }

  lemma UnbrokenSnoc(log: seq<Piece>, x: Piece)
    ensures Unbroken(log + [x]) <==> Unbroken(log) && (Unfinished(log) ==> log[|log| - 1].who == x.who)
    ensures Unfinished(log + [x]) <==> !x.last
  {
    assert (log + [x])[..|log|] == log;
  }

  lemma PieceInOrder<P>(s: State<P>, i: nat, piece: Piece)
    requires Enabled(s, Write(i)) && InRange(s) && CallsInOrder(s)
    requires piece == NextPiece(s.senders[i], i, s.capacity, s.ring) && (piece.bytes != [] || piece.last)
    ensures InRange(Next(s, Write(i))) && CallsInOrder(Next(s, Write(i)))
  {
    InRangeKept(s, Write(i));
    var t := Next(s, Write(i));
    assert t.log == s.log + [piece] && t.senders == s.senders[i := Advance(s.senders[i], |piece.bytes|)];
    UnbrokenSnoc(s.log, piece);
    if Unbroken(t.log) {
      forall j | 0 <= j < |t.senders|
        ensures PiecesOf(Merged(t.log), j) == Begun(t.senders[j])
        ensures t.senders[j].iret > 0 <==> Unfinished(t.log) && t.log[|t.log| - 1].who == j
      {
        PieceOfOne(s.log, s.senders[j], j, i, piece);
      }
    }
  }

  lemma EmptyPass<P>(s: State<P>, i: nat)
    requires Enabled(s, Write(i)) && InRange(s)
    requires var piece := NextPiece(s.senders[i], i, s.capacity, s.ring); piece.bytes == [] && !piece.last
    ensures Next(s, Write(i)).senders == s.senders && Next(s, Write(i)).log == s.log
  {}

  lemma CallsInOrderKept<P>(s: State<P>, step: Step<P>)
    requires Enabled(s, step) && InRange(s) && CallsInOrder(s)
    ensures InRange(Next(s, step)) && CallsInOrder(Next(s, step))
  {
    InRangeKept(s, step);
    if step.Write? {
      var i := step.who;
      var piece := NextPiece(s.senders[i], i, s.capacity, s.ring);
      if piece.bytes != [] || piece.last {
        PieceInOrder(s, i, piece);
      } else {
        EmptyPass(s, i);
      }
    } else {
      assert Next(s, step).log == s.log && Next(s, step).senders == s.senders;
    }
  }

  lemma JoinedBytes(m: seq<Piece>, x: Piece, goesOn: bool)
    requires goesOn ==> m != []
    ensures BytesOf(Joined(m, x, goesOn)) == BytesOf(m) + x.bytes
  {
    var n := Joined(m, x, goesOn);
    if goesOn {
      assert n[..|n| - 1] == m[..|m| - 1];
      assert BytesOf(m[..|m| - 1]) + (m[|m| - 1].bytes + x.bytes) == BytesOf(m[..|m| - 1]) + m[|m| - 1].bytes + x.bytes;
    } else {
      assert n[..|n| - 1] == m;
    }
  }

  lemma {:induction false} MergedBytes(log: seq<Piece>)
    ensures BytesOf(Merged(log)) == BytesOf(log)
  {
    if log == [] {
    } else {
      var p := log[..|log| - 1];
      MergedBytes(p);
      JoinedBytes(Merged(p), log[|log| - 1], Unfinished(p));
    }
  }

  lemma StepKeepsInv<P>(s: State<P>, step: Step<P>)
    requires Inv(s) && Enabled(s, step)
    ensures Inv(Next(s, step))
  {
    InRangeKept(s, step);
    OwnedKept(s, step);
    UndisturbedKept(s, step);
    NothingLostKept(s, step);
    InterleavedKept(s, step);
    CallsInOrderKept(s, step);
  }

  /** A buffer libuv has is neither handed out nor written before its completion. */
  lemma InFlightUntouched<P>(s: State<P>, step: Step<P>, p: P)
    requires Inv(s) && Enabled(s, step) && p in s.flight && step != Complete(p)
    ensures var t := Next(s, step);
            p in t.flight && t.flight[p] == s.flight[p] && p in t.mem && t.mem[p] == s.mem[p] && t.held != Some(p)
  {
    StepKeepsInv(s, step);
    if step.Pop? {
      FetchKeeps(s.avail, step.spare);
    }
  }

  // ---- Whole runs ----

  ghost predicate CanRun<P>(s: State<P>, steps: seq<Step<P>>)
    decreases |steps|
  {
    steps == [] || (InRange(s) && Enabled(s, steps[0]) && CanRun(Next(s, steps[0]), steps[1..]))
  }

  ghost function After<P>(s: State<P>, steps: seq<Step<P>>): State<P>
    requires CanRun(s, steps)
    decreases |steps|
  {
    if steps == [] then s else After(Next(s, steps[0]), steps[1..])
  }

  /** These steps can be taken from s, and lead to t. */
  ghost predicate Runs<P>(s: State<P>, steps: seq<Step<P>>, t: State<P>) {
    CanRun(s, steps) && t == After(s, steps)
  }

  lemma OneStepRun<P>(s: State<P>, steps: seq<Step<P>>, step: Step<P>, t: State<P>)
    requires Runs(s, steps, t) && steps == [step]
    ensures InRange(s) && Enabled(s, step) && t == Next(s, step)
  {
    assert steps[1..] == [];
    assert t == After(Next(s, steps[0]), []);
  }

  ghost predicate SamePrograms<P>(s: State<P>, t: State<P>) {
    && |s.senders| == |t.senders| && s.capacity == t.capacity
    && forall i :: 0 <= i < |s.senders| ==> s.senders[i].queue == t.senders[i].queue
  }

  lemma StepKeepsPrograms<P>(s: State<P>, step: Step<P>)
    requires Enabled(s, step) && InRange(s)
    ensures SamePrograms(s, Next(s, step))
  {}

  /** Every interleaving of senders, loop thread and completions keeps all of Inv. */
  lemma {:induction false} RunKeepsInv<P>(s: State<P>, steps: seq<Step<P>>)
    requires Inv(s) && CanRun(s, steps)
    ensures Inv(After(s, steps)) && SamePrograms(s, After(s, steps))
    decreases |steps|
  {
    if steps == [] {
    } else {
      var t := Next(s, steps[0]);
      StepKeepsInv(s, steps[0]);
      StepKeepsPrograms(s, steps[0]);
      RunKeepsInv(t, steps[1..]);
    }
  }

  lemma {:induction false} RunSnoc<P>(s: State<P>, steps: seq<Step<P>>, last: Step<P>)
    requires CanRun(s, steps) && InRange(After(s, steps)) && Enabled(After(s, steps), last)
    ensures CanRun(s, steps + [last]) && After(s, steps + [last]) == Next(After(s, steps), last)
    decreases |steps|
  {
    var all := steps + [last];
    if steps == [] {
      assert all[1..] == [];
      assert CanRun(Next(s, last), []);
    } else {
      RunSnoc(Next(s, steps[0]), steps[1..], last);
      assert all[1..] == steps[1..] + [last];
    }
  }

  lemma {:induction false} RunAppend<P>(s: State<P>, a: seq<Step<P>>, b: seq<Step<P>>)
    requires CanRun(s, a) && CanRun(After(s, a), b)
    ensures CanRun(s, a + b) && After(s, a + b) == After(After(s, a), b)
    decreases |a|
  {
    if a == [] {
      assert a + b == b;
    } else {
      var all := a + b;
      RunAppend(Next(s, a[0]), a[1..], b);
      assert all[0] == a[0] && all[1..] == a[1..] + b;
      assert CanRun(s, all);
    }
  }

  /** s is what these steps make of a fresh client with these senders. */
  ghost predicate Reaches<P>(queues: seq<seq<seq<Byte>>>, capacity: nat, steps: seq<Step<P>>, s: State<P>) {
    Runs(Init(queues, capacity), steps, s)
  }

  lemma ReachedInv<P>(queues: seq<seq<seq<Byte>>>, capacity: nat, steps: seq<Step<P>>, s: State<P>)
    requires Reaches(queues, capacity, steps, s)
    ensures Inv(s) && SamePrograms(Init(queues, capacity), s)
    ensures |s.senders| == |queues| && s.capacity == capacity && |s.ring| <= capacity
    ensures forall i :: 0 <= i < |queues| ==> s.senders[i].queue == queues[i] && s.senders[i].call <= |queues[i]|
    ensures |s.avail| <= 21 && forall i, j :: 0 <= i < j < |s.avail| ==> s.avail[i] != s.avail[j]
    ensures forall p :: p in s.avail ==> p !in s.flight && s.held != Some(p)
    ensures s.held.Some? ==> s.held.value !in s.flight
    ensures forall p :: p in s.flight ==> p in s.mem && s.mem[p] == s.flight[p]
    ensures |s.chunks| == |s.sent| + s.failures + (if s.held.Some? then 1 else 0)
    ensures s.failures == 0 ==> s.sent == s.chunks[..|s.sent|]
    ensures forall k :: 0 <= k < |s.chunks| ==> 0 < |s.chunks[k]| <= 10240
    ensures Flatten(s.chunks) + s.ring == BytesOf(s.log)
    ensures forall i :: 0 <= i < |queues| ==>
                          var c := s.senders[i].call;
                          Flatten(PiecesOf(s.log, i)) ==
                          Flatten(queues[i][..c]) + if c < |queues[i]| then queues[i][c][..s.senders[i].iret] else []
  {
    InitInv<P>(queues, capacity);
    RunKeepsInv(Init<P>(queues, capacity), steps);
  }

  lemma {:induction false} PieceAt(log: seq<Piece>, k: nat)
    requires k < |log|
    ensures var at := |BytesOf(log[..k])|;
            at + |log[k].bytes| <= |BytesOf(log)| && BytesOf(log)[at..at + |log[k].bytes|] == log[k].bytes
  {
    var n := |log| - 1;
    if k < n {
      PieceAt(log[..n], k);
      assert log[..n][..k] == log[..k];
    }
  }

  /** Each pass of Send is contiguous in the stream; so a call that one pass takes whole is, too. */
  lemma Contiguous<P>(s: State<P>, k: nat)
    requires Inv(s) && k < |s.log|
    ensures var at := |BytesOf(s.log[..k])|;
            at + |s.log[k].bytes| <= |Flatten(s.chunks) + s.ring|
            && (Flatten(s.chunks) + s.ring)[at..at + |s.log[k].bytes|] == s.log[k].bytes
  {
    PieceAt(s.log, k);
  }

  /** A pass that finds enough room for the whole call logs the call as one piece. */
  lemma FirstPassWhole<P>(s: State<P>, i: nat)
    requires InRange(s) && Enabled(s, Write(i)) && s.senders[i].iret == 0
    requires |s.ring| + |s.senders[i].queue[s.senders[i].call]| <= s.capacity
    ensures var t, call := Next(s, Write(i)), s.senders[i].queue[s.senders[i].call];
            t.log == s.log + [Piece(i, call, true)] && t.senders[i].call == s.senders[i].call + 1
  {
    var call := s.senders[i].queue[s.senders[i].call];
    assert call[0..] == call && call[..|call|] == call;
  }

  lemma {:induction false} OnlyPieces(log: seq<Piece>)
    requires forall k :: 0 <= k < |log| ==> log[k].who == 0
    ensures Flatten(PiecesOf(log, 0)) == BytesOf(log)
  {
    if log == [] {
    } else {
      var p := log[..|log| - 1];
      OnlyPieces(p);
      FlattenSnoc(PiecesOf(p, 0), log[|log| - 1].bytes);
    }
  }

  /** What uv_write accepted, what is in hand and what is in the ring: with one sender and no failure that is exactly
      what it has written, in order. */
  lemma OneSender<P>(s: State<P>)
    requires Inv(s) && |s.senders| == 1 && s.failures == 0
    ensures Flatten(s.sent) + Flatten(s.chunks[|s.sent|..]) + s.ring == Written(s.senders[0])
  {
    OnlyPieces(s.log);
    assert s.chunks == s.sent + s.chunks[|s.sent|..];
    FlattenAppend(s.sent, s.chunks[|s.sent|..]);
  }

  lemma WrittenIsPrefix(sender: Sender)
    requires CursorInRange(sender)
    ensures Written(sender) <= Flatten(sender.queue)
    ensures sender.call == |sender.queue| ==> Written(sender) == Flatten(sender.queue)
  {
    var q, c := sender.queue, sender.call;
    assert q == q[..c] + q[c..];
    FlattenAppend(q[..c], q[c..]);
    if c < |q| {
      assert Flatten(q[c..]) == q[c] + Flatten(q[c..][1..]);
      assert q[c] == q[c][..sender.iret] + q[c][sender.iret..];
    }
  }

  /** Nothing is left in the client, and no uv_write has failed. */
  ghost predicate Drained<P>(s: State<P>) {
    s.ring == [] && s.held == None && s.failures == 0
  }

  predicate Done(sender: Sender) {
    sender.call == |sender.queue|
  }

  /** Every Send has returned. */
  ghost predicate AllSent<P>(s: State<P>) {
    forall i :: 0 <= i < |s.senders| ==> Done(s.senders[i])
  }

  lemma DrainedSent<P>(s: State<P>)
    requires Inv(s) && Drained(s)
    ensures s.sent == s.chunks && Flatten(s.sent) == BytesOf(s.log)
  {
    assert s.chunks[..|s.chunks|] == s.chunks;
  }

  // ---- What _send does, as a run ----

  /** n passes through the loop of _send, with these outcomes of uv_write. */
  ghost predicate IsDrain<P>(steps: seq<Step<P>>, oks: seq<bool>, n: nat) {
    if n == 0 then steps == []
    else
      && |steps| >= 2
      && steps[|steps| - 2].Pop? && steps[|steps| - 1] == Submit(Succeeds(oks, n - 1))
      && IsDrain(steps[..|steps| - 2], oks, n - 1)
  }

  /** _send goes on until the ring is empty. */
  ghost predicate IsWholeDrain<P>(steps: seq<Step<P>>, oks: seq<bool>, t: State<P>) {
    t.ring == [] && exists n: nat :: IsDrain(steps, oks, n)
  }

  lemma DrainSnoc<P>(steps: seq<Step<P>>, oks: seq<bool>, n: nat, p: P)
    requires IsDrain(steps, oks, n)
    ensures IsDrain(steps + [Pop(p)] + [Submit(Succeeds(oks, n))], oks, n + 1)
  {
    var all := steps + [Pop(p)] + [Submit(Succeeds(oks, n))];
    assert all[..|all| - 2] == steps;
  }

  /** How many of the first n uv_writes fail. */
  function Failed(oks: seq<bool>, n: nat): nat {
    if n == 0 then 0 else Failed(oks, n - 1) + if Succeeds(oks, n - 1) then 0 else 1
  }

  /** ... that is, how many of the first n outcomes are given as false. */
  lemma {:induction false} FailedCount(oks: seq<bool>, n: nat)
    ensures Failed(oks, n) == |set k | 0 <= k < n && k < |oks| && !oks[k]|
  {
    var all := set k | 0 <= k < n && k < |oks| && !oks[k];
    if n == 0 {
      assert all == {};
    } else {
      var less := set k | 0 <= k < n - 1 && k < |oks| && !oks[k];
      FailedCount(oks, n - 1);
      if n - 1 < |oks| && !oks[n - 1] {
        assert all == less + {n - 1};
      } else {
        assert all == less;
      }
    }
  }

  /** The chunks whose uv_write succeeds. */
  function Taken(chunks: seq<seq<Byte>>, oks: seq<bool>): seq<seq<Byte>> {
    if chunks == [] then []
    else
      var n := |chunks| - 1;
      Taken(chunks[..n], oks) + if n < |oks| && !oks[n] then [] else [chunks[n]]
  }

  lemma TakenSnoc(chunks: seq<seq<Byte>>, c: seq<Byte>, oks: seq<bool>)
    ensures Taken(chunks + [c], oks) == Taken(chunks, oks) + if Succeeds(oks, |chunks|) then [c] else []
  {
    assert (chunks + [c])[..|chunks|] == chunks;
  }

  lemma {:induction false} AllTaken(chunks: seq<seq<Byte>>, oks: seq<bool>)
    requires false !in oks
    ensures Taken(chunks, oks) == chunks
  {
    if chunks == [] {
    } else {
      AllTaken(chunks[..|chunks| - 1], oks);
    }
  }

  lemma {:induction false} NoneFailed(oks: seq<bool>, n: nat)
    requires false !in oks
    ensures Failed(oks, n) == 0
  {
    if n == 0 {
    } else {
      NoneFailed(oks, n - 1);
      assert Succeeds(oks, n - 1) by {
        if n - 1 < |oks| {
          assert oks[n - 1] in oks;
        }
      }
    }
  }

  /** What a drain leaves alone, and that every byte popped has left the ring. */
  ghost predicate DrainKeeps<P>(s: State<P>, t: State<P>) {
    && t.senders == s.senders && t.closed == s.closed && t.tested == s.tested
    && t.capacity == s.capacity && t.log == s.log
    && t.held == None && Flatten(t.chunks) + t.ring == Flatten(s.chunks) + s.ring
  }

  lemma PassIsRun<P>(s: State<P>, p: P, ok: bool)
    requires InRange(s) && Enabled(s, Pop(p)) && InRange(Next(s, Pop(p))) && Enabled(Next(s, Pop(p)), Submit(ok))
    ensures var u := Next(Next(s, Pop(p)), Submit(ok));
            Runs(s, [Pop(p), Submit(ok)], u) && DrainKeeps(s, u) && |u.ring| < |s.ring|
  {
    PopConserves(s, p);
    RunSnoc(s, [], Pop(p));
    RunSnoc(s, [] + [Pop(p)], Submit(ok));
    assert [] + [Pop(p)] + [Submit(ok)] == [Pop(p), Submit(ok)];
  }

  /** n passes of _send's loop have led from `start` to s. */
  ghost predicate DrainedSoFar<P>(start: State<P>, drain: seq<Step<P>>, oks: seq<bool>, n: nat, s: State<P>) {
    Runs(start, drain, s) && IsDrain(drain, oks, n) && DrainKeeps(start, s)
  }

  /** One more pass of _send's loop. */
  lemma DrainOn<P>(start: State<P>, drain: seq<Step<P>>, oks: seq<bool>, n: nat, s: State<P>, p: P, u: State<P>)
      returns (more: seq<Step<P>>)
    requires DrainedSoFar(start, drain, oks, n, s)
    requires Runs(s, [Pop(p), Submit(Succeeds(oks, n))], u) && DrainKeeps(s, u)
    ensures DrainedSoFar(start, more, oks, n + 1, u)
  {
    more := drain + [Pop(p), Submit(Succeeds(oks, n))];
    RunAppend(start, drain, [Pop(p), Submit(Succeeds(oks, n))]);
    DrainSnoc(drain, oks, n, p);
    assert drain + [Pop(p)] + [Submit(Succeeds(oks, n))] == drain + [Pop(p), Submit(Succeeds(oks, n))];
  }

  lemma {:induction false} RunSplit<P>(s: State<P>, a: seq<Step<P>>, b: seq<Step<P>>)
    requires CanRun(s, a + b)
    ensures CanRun(s, a) && CanRun(After(s, a), b) && After(s, a + b) == After(After(s, a), b)
    decreases |a|
  {
    if a == [] {
      assert a + b == b;
    } else {
      var all := a + b;
      assert all[0] == a[0] && all[1..] == a[1..] + b;
      RunSplit(Next(s, a[0]), a[1..], b);
    }
  }

  lemma DrainPassKeeps<P>(s: State<P>, p: P, ok: bool)
    requires InRange(s) && CanRun(s, [Pop(p), Submit(ok)])
    ensures var t := After(s, [Pop(p), Submit(ok)]);
            && InRange(t) && DrainKeeps(s, t)
            && t.chunks == s.chunks + [s.ring[..Min(|s.ring|, 10240)]]
            && t.failures == s.failures + (if ok then 0 else 1)
            && t.sent == if ok then s.sent + [t.chunks[|s.chunks|]] else s.sent
  {
    var both: seq<Step<P>> := [Pop(p), Submit(ok)];
    var t := Next(s, Pop(p));
    assert both[1..] == [Submit(ok)];
    assert both[1..][1..] == [];
    assert After(s, both) == After(t, both[1..]) == Next(t, Submit(ok));
    PopConserves(s, p);
    InRangeKept(s, Pop(p));
    InRangeKept(t, Submit(ok));
  }

  lemma OneMoreTaken(a: seq<seq<Byte>>, b: seq<seq<Byte>>, c: seq<seq<Byte>>, x: seq<seq<Byte>>, y: seq<seq<Byte>>,
                     z: seq<seq<Byte>>, oks: seq<bool>)
    requires a <= b && b <= c && |c| == |b| + 1
    requires y == x + Taken(b[|a|..], oks) && z == if Succeeds(oks, |b| - |a|) then y + [c[|b|]] else y
    ensures a <= c && z == x + Taken(c[|a|..], oks)
  {
    TakenSnoc(b[|a|..], c[|b|], oks);
    assert c[|a|..] == b[|a|..] + [c[|b|]];
  }

  /** A drain conserves the bytes, leaves the senders alone, and fails as often as its outcomes say. */
  lemma {:induction false} DrainRun<P>(s: State<P>, steps: seq<Step<P>>, oks: seq<bool>, n: nat)
    requires InRange(s) && s.held == None && CanRun(s, steps) && IsDrain(steps, oks, n)
    ensures var t := After(s, steps);
            && InRange(t) && DrainKeeps(s, t) && |t.chunks| == |s.chunks| + n && s.chunks <= t.chunks
            && t.sent == s.sent + Taken(t.chunks[|s.chunks|..], oks)
            && t.failures == s.failures + Failed(oks, n)
  {
    if n == 0 {
    } else {
      var front, last := steps[..|steps| - 2], steps[|steps| - 2..];
      assert steps == front + last && last == [steps[|steps| - 2], steps[|steps| - 1]];
      RunSplit(s, front, last);
      DrainRun(s, front, oks, n - 1);
      var u, t := After(s, front), After(s, steps);
      DrainPassKeeps(u, last[0].spare, Succeeds(oks, n - 1));
      OneMoreTaken(s.chunks, u.chunks, t.chunks, s.sent, u.sent, t.sent, oks);
    }
  }

  lemma Cancel(a: seq<Byte>, b: seq<Byte>, c: seq<Byte>)
    requires a + b == a + c
    ensures b == c
  {
    assert (a + b)[|a|..] == b && (a + c)[|a|..] == c;
  }

  /** Without a failure, a drain that empties the ring submits what was in it. */
  lemma DrainSubmits<P>(s: State<P>, steps: seq<Step<P>>, oks: seq<bool>, t: State<P>)
    requires InRange(s) && s.held == None && Runs(s, steps, t) && IsWholeDrain(steps, oks, t) && false !in oks
    ensures Flatten(t.sent) == Flatten(s.sent) + s.ring
  {
    var n: nat :| IsDrain(steps, oks, n);
    DrainRun(s, steps, oks, n);
    var chunks := t.chunks[|s.chunks|..];
    assert t.chunks == s.chunks + chunks;
    AllTaken(chunks, oks);
    FlattenAppend(s.chunks, chunks);
    FlattenAppend(s.sent, chunks);
    assert Flatten(t.chunks) + [] == Flatten(t.chunks);
    Cancel(Flatten(s.chunks), Flatten(chunks), s.ring);
  }

  // ---- When nothing can come between the pieces of a call ----

  lemma {:induction false} AloneUnbroken(log: seq<Piece>)
    requires forall k :: 0 <= k < |log| ==> log[k].who == 0
    ensures Unbroken(log)
  {
    if log == [] {
    } else {
      AloneUnbroken(log[..|log| - 1]);
    }
  }

  lemma {:induction false} OnePassUnbroken(log: seq<Piece>)
    requires forall k :: 0 <= k < |log| ==> log[k].last
    ensures Unbroken(log)
  {
    if log == [] {
    } else {
      OnePassUnbroken(log[..|log| - 1]);
    }
  }

  /** Nobody else sends. */
  lemma AloneReached<P>(queues: seq<seq<seq<Byte>>>, capacity: nat, steps: seq<Step<P>>, s: State<P>)
    requires Reaches(queues, capacity, steps, s) && |queues| <= 1
    ensures Unbroken(s.log)
  {
    ReachedInv(queues, capacity, steps, s);
    AloneUnbroken(s.log);
  }

  /** The bytes of the calls a sender has not finished. */
  function LeftOf(sender: Sender): nat
    requires CursorInRange(sender)
  {
    |Flatten(sender.queue[sender.call..])|
  }

  /** ... and of all senders. */
  function Left(senders: seq<Sender>): nat
    requires forall i :: 0 <= i < |senders| ==> CursorInRange(senders[i])
  {
    if senders == [] then 0
    else Left(senders[..|senders| - 1]) + LeftOf(senders[|senders| - 1])
  }

  lemma {:induction false} LeftUpdate(senders: seq<Sender>, i: nat, next: Sender)
    requires forall j :: 0 <= j < |senders| ==> CursorInRange(senders[j])
    requires i < |senders| && CursorInRange(next)
    ensures Left(senders[i := next]) + LeftOf(senders[i]) == Left(senders) + LeftOf(next)
  {
    var n, all := |senders| - 1, senders[i := next];
    if i == n {
      assert all[..n] == senders[..n];
    } else {
      LeftUpdate(senders[..n], i, next);
      assert all[..n] == senders[..n][i := next];
    }
  }

  /** There is room for everything that is still to come. */
  ghost predicate Roomy<P>(s: State<P>) {
    && InRange(s)
    && (forall i :: 0 <= i < |s.senders| ==> s.senders[i].iret == 0)
    && |s.ring| + Left(s.senders) <= s.capacity
    && (forall k :: 0 <= k < |s.log| ==> s.log[k].last)
  }

  lemma {:induction false} LeftOne(senders: seq<Sender>, i: nat)
    requires forall j :: 0 <= j < |senders| ==> CursorInRange(senders[j])
    requires i < |senders|
    ensures LeftOf(senders[i]) <= Left(senders)
  {
    var n := |senders| - 1;
    if i < n {
      LeftOne(senders[..n], i);
    }
  }

  lemma WriteRoomy<P>(s: State<P>, i: nat)
    requires Roomy(s) && Enabled(s, Write(i))
    ensures Roomy(Next(s, Write(i)))
  {
    var sender := s.senders[i];
    var call := sender.queue[sender.call];
    assert sender.queue[sender.call..][1..] == sender.queue[sender.call + 1..];
    LeftOne(s.senders, i);
    FirstPassWhole(s, i);
    InRangeKept(s, Write(i));
    LeftUpdate(s.senders, i, Sender(sender.queue, sender.call + 1, 0));
    assert call[0..] == call;
  }

  lemma {:induction false} RunKeepsRoomy<P>(s: State<P>, steps: seq<Step<P>>)
    requires Roomy(s) && CanRun(s, steps)
    ensures Roomy(After(s, steps))
    decreases |steps|
  {
    if steps == [] {
    } else {
      InRangeKept(s, steps[0]);
      if steps[0].Write? {
        WriteRoomy(s, steps[0].who);
      }
      RunKeepsRoomy(Next(s, steps[0]), steps[1..]);
    }
  }

  function Total(queues: seq<seq<seq<Byte>>>): nat {
    if queues == [] then 0 else Total(queues[..|queues| - 1]) + |Flatten(queues[|queues| - 1])|
  }

  lemma {:induction false} LeftAtFirst(queues: seq<seq<seq<Byte>>>, senders: seq<Sender>)
    requires |senders| == |queues| && forall i :: 0 <= i < |queues| ==> senders[i] == Sender(queues[i], 0, 0)
    ensures Left(senders) == Total(queues)
  {
    if queues == [] {
    } else {
      var n := |queues| - 1;
      LeftAtFirst(queues[..n], senders[..n]);
      assert queues[n][0..] == queues[n];
    }
  }

  /** All calls together fit the ring: then each goes in by one pass. */
  lemma FitReached<P>(queues: seq<seq<seq<Byte>>>, capacity: nat, steps: seq<Step<P>>, s: State<P>)
    requires Reaches(queues, capacity, steps, s) && Total(queues) <= capacity
    ensures Unbroken(s.log)
  {
    var start := Init<P>(queues, capacity);
    LeftAtFirst(queues, start.senders);
    RunKeepsRoomy(start, steps);
    OnePassUnbroken(s.log);
  }

  // ---- The pool is a queue ----

  /** What a step puts back: a completed param, or one whose uv_write failed, while at most twenty are pooled. */
  ghost function PutBack<P>(s: State<P>, step: Step<P>): seq<P>
    requires Enabled(s, step)
  {
    if |s.avail| > 20 then []
    else if step.Complete? then [step.param]
    else if step.Submit? && !step.ok then [s.held.value]
    else []
  }

  /** ... and in a whole run. */
  ghost function AllPutBack<P>(s: State<P>, steps: seq<Step<P>>): seq<P>
    requires CanRun(s, steps)
    decreases |steps|
  {
    if steps == [] then [] else PutBack(s, steps[0]) + AllPutBack(Next(s, steps[0]), steps[1..])
  }

  /** How many pops find the pool not empty. */
  ghost function Fetches<P>(s: State<P>, steps: seq<Step<P>>): nat
    requires CanRun(s, steps)
    decreases |steps|
  {
    if steps == [] then 0
    else (if steps[0].Pop? && s.avail != [] then 1 else 0) + Fetches(Next(s, steps[0]), steps[1..])
  }

  lemma PoolStep<P>(s: State<P>, step: Step<P>)
    requires InRange(s) && Enabled(s, step)
    ensures var t := Next(s, step);
            && t.avail == (if step.Pop? && s.avail != [] then s.avail[1..] else s.avail) + PutBack(s, step)
            && (step.Pop? && s.avail != [] ==> t.held == Some(s.avail[0]))
            && (step.Pop? && s.avail == [] ==> t.held == Some(step.spare))
  {
    assert s.avail + [] == s.avail;
  }

  lemma Requeue<P>(a: seq<P>, b: seq<P>, c: seq<P>, k: nat, n: nat)
    requires k <= |a| && n <= |a[k..] + b + c|
    ensures (a[k..] + b + c)[n..] == (a + (b + c))[k + n..]
  {
    assert a[k..] + b + c == (a + (b + c))[k..];
  }

  /** Params come out of the pool in the order in which they were put in, the oldest first. */
  lemma {:induction false} PoolIsQueue<P>(s: State<P>, steps: seq<Step<P>>)
    requires CanRun(s, steps)
    ensures Fetches(s, steps) <= |s.avail + AllPutBack(s, steps)|
    ensures After(s, steps).avail == (s.avail + AllPutBack(s, steps))[Fetches(s, steps)..]
    decreases |steps|
  {
    if steps == [] {
    } else {
      var t := Next(s, steps[0]);
      PoolStep(s, steps[0]);
      PoolIsQueue(t, steps[1..]);
      var k := if steps[0].Pop? && s.avail != [] then 1 else 0;
      Requeue(s.avail, PutBack(s, steps[0]), AllPutBack(t, steps[1..]), k, Fetches(t, steps[1..]));
    }
  }
}
