/** The client of tcpclient.cpp: the fields its threads share, each method a step or a run of the send pipeline. */
module TcpClient {
  import opened Bytes
  import opened ParamPool
  import opened SendPipeline
  import Ring = PodCircularBuffer

  class ClientWriteParam {
    const base: array<Byte>
    const bufTrueLen: int
    var len: int

    /** Alloc. */
    constructor ()
      ensures fresh(base) && base.Length == bufTrueLen == BUFFER_SIZE
    {
      base := new Byte[BUFFER_SIZE];
      bufTrueLen := BUFFER_SIZE;
      len := BUFFER_SIZE;
    }

    ghost function Submitted(): seq<Byte>
      requires 0 <= len <= base.Length
      reads this, base
    {
      base[..len]
    }
  }

  /** What can happen to the client, in any order: threads, the loop and the peer take turns as they please. `oks` are
      the outcomes of the uv_writes that follow. */
  datatype Event =
    | Tests(who: nat)                          // a thread's next test at the head of the loop of Send
    | Passes(who: nat)                         // the write that follows it
    | Signalled(oks: seq<bool>)                // AsyncCB
    | Receives(oks: seq<bool>)                 // OnRecv, with a result that is no error
    | Completes(status: int, oks: seq<bool>)   // OnSend, for any of the writes pending
    | Closes

  function Oks(event: Event): seq<bool> {
    if event.Signalled? || event.Receives? || event.Completes? then event.oks else []
  }

  /** No uv_write fails. */
  predicate NoWriteFails(events: seq<Event>) {
    forall k :: 0 <= k < |events| ==> false !in Oks(events[k])
  }

  /** What each event makes of a client that is not in the middle of another: threads test and write, signals and
      receipts drain the ring with the given outcomes, and so does the completion of a pending write, unless it has
      failed. */
  ghost predicate Answers(s: State<ClientWriteParam>, event: Event, steps: seq<Step<ClientWriteParam>>,
                          t: State<ClientWriteParam>)
  {
    && Runs(s, steps, t)
    && match event
       case Tests(who) => steps == if Enabled(s, Test(who)) then [Test(who)] else []
       case Passes(who) => steps == if Enabled(s, Write(who)) then [Write(who)] else []
       case Signalled(oks) => if s.closed then steps == [] else IsWholeDrain(steps, oks, t)
       case Receives(oks) => IsWholeDrain(steps, oks, t)
       case Completes(status, oks) =>
         if s.flight == map[] then steps == []
         else steps != [] && steps[0].Complete?
              && if status < 0 then steps[1..] == [] else IsWholeDrain(steps[1..], oks, t)
       case Closes => steps == [SendPipeline.CloseByUser]
  }

  /** The states a client goes through while these things happen, and the steps each of them takes. */
  ghost predicate History(states: seq<State<ClientWriteParam>>, events: seq<Event>,
                          runs: seq<seq<Step<ClientWriteParam>>>)
  {
    && |states| == |events| + 1 && |runs| == |events|
    && forall k :: 0 <= k < |events| ==> Answers(states[k], events[k], runs[k], states[k + 1])
  }

  /** The threads inside Send, as the driver sees them. */
  datatype Threads = Threads(senders: seq<Sender>, tested: set<nat>)

  class TCPClient {
    const writeBuf: Ring.PodCircularBuffer<Byte>
    var availParams: seq<ClientWriteParam>
    var isUserClosed: bool

    /** libuv's side: the bytes of the writes it has accepted, in order, and the params of those not completed. */
    var wire: seq<seq<Byte>>
    var pending: set<ClientWriteParam>

    /** The senders' cursors, libuv's side and the history: what the other threads and the loop see of this object. */
    ghost var state: State<ClientWriteParam>

    ghost predicate HasRoom(p: ClientWriteParam)
    {
      p.base.Length == p.bufTrueLen == BUFFER_SIZE
    }

    /** Every param has a buffer of its own. */
    ghost predicate Separate(params: set<ClientWriteParam>)
      reads writeBuf
    {
      && (forall p :: p in params ==> HasRoom(p) && p.base != writeBuf.buf)
      && (forall p, q :: p in params && q in params && p != q ==> p.base != q.base)
    }

    lemma SeparateSubset(some: set<ClientWriteParam>, all: set<ClientWriteParam>)
      requires Separate(all) && some <= all
      ensures Separate(some)
    {}

    /** These buffers hold what the pipeline's memory says. */
    static ghost predicate BuffersHold(params: set<ClientWriteParam>, mem: map<ClientWriteParam, seq<Byte>>)
      reads params, set p | p in params :: p.base
    {
      forall p :: p in params ==> 0 <= p.len <= p.base.Length && p in mem && p.Submitted() == mem[p]
    }

    static lemma OneMoreHolds(params: set<ClientWriteParam>, mem: map<ClientWriteParam, seq<Byte>>,
                              param: ClientWriteParam)
      requires BuffersHold(params, mem) && param !in params && 0 <= param.len <= param.base.Length
      ensures BuffersHold(params + {param}, mem[param := param.Submitted()])
    {}

    ghost predicate RingAgrees()
      reads this, writeBuf, writeBuf.buf
    {
      && writeBuf.Valid() && writeBuf.buf.Length == state.capacity == BUFFER_SIZE
      && writeBuf.Contents() == state.ring
    }

    ghost predicate Valid()
      reads this, writeBuf, writeBuf.buf, Busy(state), set p | p in Busy(state) :: p.base
    {
      && Sound(state)
      && RingAgrees()
      && availParams == state.avail && isUserClosed == state.closed
      && wire == state.sent && pending == state.flight.Keys
      && Separate(Params(state))
      && BuffersHold(Busy(state), state.mem)
    }

    /** Each param is in one place with a buffer of its own, apart from the ring's; the pool and the ring are
        bounded. */
    lemma ValidMeans()
      requires Valid()
      ensures |availParams| <= 21 && forall i, j :: 0 <= i < j < |availParams| ==> availParams[i] != availParams[j]
      ensures forall p :: p in availParams ==> p !in pending && state.held != Some(p)
      ensures forall p :: p in pending || p in availParams ==> p.base.Length == 10240 && p.base != writeBuf.buf
      ensures forall p, q :: p in pending && (q in pending || q in availParams) && p != q ==> p.base != q.base
      ensures writeBuf.Valid() && writeBuf.buf.Length == 10240 && writeBuf.Contents() == state.ring
      ensures availParams == state.avail && isUserClosed == state.closed
      ensures wire == state.sent && pending == state.flight.Keys
    {
      assert forall p :: p in pending || p in availParams ==> p in Params(state);
    }

    constructor (ghost queues: seq<seq<seq<Byte>>>)
      ensures Valid() && state == Init(queues, BUFFER_SIZE)
      ensures fresh(writeBuf) && fresh(writeBuf.buf)
    {
      writeBuf := new Ring.PodCircularBuffer(BUFFER_SIZE);
      availParams := [];
      isUserClosed := false;
      wire, pending := [], {};
      state := Init(queues, BUFFER_SIZE);
      new;
    }

    /** The write under the mutex. */
    method WriteRing(data: seq<Byte>, iret: nat) returns (n: nat)
      requires writeBuf.Valid() && iret <= |data|
      modifies writeBuf, writeBuf.buf
      ensures writeBuf.Valid() && writeBuf.buf == old(writeBuf.buf)
      ensures var piece := Ring.Accepted(writeBuf.buf.Length, old(writeBuf.Contents()), data[iret..]);
              n == |piece| && writeBuf.Contents() == old(writeBuf.Contents()) + piece
      ensures n == Min(|data| - iret, writeBuf.buf.Length - |old(writeBuf.Contents())|)
      ensures writeBuf.Contents() == old(writeBuf.Contents()) + data[iret..iret + n]
    {
      n := writeBuf.Write(data[iret..], |data| - iret);
      assert data[iret..][..|data| - iret] == data[iret..];
    }

    /** The test at the head of Send's loop. */
    method KeepsOn(ghost who: nat) returns (open: bool)
      requires Valid() && who < |state.senders| && state.senders[who].call < |state.senders[who].queue|
      modifies `state
      ensures Valid() && open == !isUserClosed == Enabled(old(state), Test(who))
      ensures state == if open then Next(old(state), Test(who)) else old(state)
      ensures state == if open then old(state).(tested := old(state).tested + {who}) else old(state)
    {
      open := !isUserClosed;
      if open {
        SoundKept(state, Test(who));
        state := Next(state, Test(who));
      }
    }

    method AddPiece(data: seq<Byte>, iret: nat, ghost who: nat) returns (next: nat)
      requires Valid() && Enabled(state, Write(who))
      requires data == state.senders[who].queue[state.senders[who].call] && iret == state.senders[who].iret
      modifies this, writeBuf, writeBuf.buf
      ensures Valid() && state == Next(old(state), Write(who)) && writeBuf.buf == old(writeBuf.buf)
      ensures next == iret + |NextPiece(old(state).senders[who], who, old(state).capacity, old(state).ring).bytes|
      ensures next - iret == Min(|data| - iret, 10240 - |old(writeBuf.Contents())|)
      ensures writeBuf.Contents() == old(writeBuf.Contents()) + data[iret..next]
    {
      ghost var piece := NextPiece(state.senders[who], who, state.capacity, state.ring);
      var n := WriteRing(data, iret);
      assert n == |piece.bytes|;
      next := iret + n;
      SoundKept(state, Write(who));
      state := Next(state, Write(who));
    }

    /** The write in the body of that loop, for the call `data`, of which `iret` bytes are written. */
    method SendPass(data: seq<Byte>, iret: nat, ghost who: nat) returns (next: nat)
      requires Valid() && Enabled(state, Write(who))
      requires data == state.senders[who].queue[state.senders[who].call] && iret == state.senders[who].iret
      modifies this, writeBuf, writeBuf.buf
      ensures Valid() && state == Next(old(state), Write(who))
      ensures writeBuf.buf == old(writeBuf.buf)
      ensures next == iret + |NextPiece(old(state).senders[who], who, old(state).capacity, old(state).ring).bytes|
      ensures next == |data| <==> state.senders[who].call == old(state).senders[who].call + 1
      ensures next - iret == Min(|data| - iret, 10240 - |old(writeBuf.Contents())|)
      ensures writeBuf.Contents() == old(writeBuf.Contents()) + data[iret..next]
      ensures var sender := old(state).senders[who];
              state.senders == old(state).senders[
                who := if next == |data| then Sender(sender.queue, sender.call + 1, 0)
                       else Sender(sender.queue, sender.call, next)]
    {
      ghost var s, to := state, iret + Min(|data| - iret, 10240 - |state.ring|);
      WriteMeans(s, who);
      next := AddPiece(data, iret, who);
      assert next == to;
    }

    method FetchOneParam() returns (param: ClientWriteParam)
      modifies `availParams
      ensures param == Fetched(old(availParams), param) && availParams == AfterFetch(old(availParams))
      ensures old(availParams) == [] ==>
                fresh(param) && fresh(param.base) && param.base.Length == param.bufTrueLen == 10240 && availParams == []
      ensures old(availParams) != [] ==> param == old(availParams)[0] && availParams == old(availParams)[1..]
    {
      if availParams == [] {
        param := new ClientWriteParam();
      } else {
        param := availParams[0];
        availParams := availParams[1..];
      }
    }

    method RecycleOneParam(param: ClientWriteParam)
      modifies `availParams
      ensures availParams == AfterRecycle(old(availParams), param)
      ensures |old(availParams)| <= 20 ==> availParams == old(availParams) + [param]
      ensures |old(availParams)| > 20 ==> availParams == old(availParams)
    {
      if |availParams| > MAXLISTSIZE {
        // released
      } else {
        availParams := availParams + [param];
      }
    }

    /** Close, as far as the senders can tell. */
    method CloseByUser()
      requires Valid()
      modifies `isUserClosed, `state
      ensures Valid() && state == Next(old(state), SendPipeline.CloseByUser)
      ensures isUserClosed && state == old(state).(closed := true)
    {
      state := Next(state, SendPipeline.CloseByUser);
      isUserClosed := true;
    }

    /** The read of _send. */
    method ReadInto(param: ClientWriteParam)
      requires writeBuf.Valid() && HasRoom(param) && param.base != writeBuf.buf
      modifies writeBuf, param, param.base
      ensures 0 <= param.len <= param.base.Length
      ensures param.Submitted() == old(writeBuf.Contents())[..PoppedLen(old(writeBuf.Contents()))]
      ensures writeBuf.buf == old(writeBuf.buf) && writeBuf.Valid()
      ensures writeBuf.Contents() == old(writeBuf.Contents())[PoppedLen(old(writeBuf.Contents()))..]
    {
      param.len := writeBuf.Read(param.base, param.bufTrueLen);
    }

    /** The fetch and the read, for a param nobody else has hold of. */
    method FillParam() returns (param: ClientWriteParam)
      requires IsPool(availParams) && availParams == state.avail && (forall p :: p in availParams ==> p !in Busy(state))
      requires RingAgrees() && Separate(Params(state)) && BuffersHold(Busy(state), state.mem)
      modifies `availParams, writeBuf, set p | p in availParams, set p | p in availParams :: p.base
      ensures param == Fetched(old(availParams), param) && availParams == AfterFetch(old(availParams))
      ensures param in old(availParams) || (fresh(param) && fresh(param.base))
      ensures HasRoom(param) && 0 <= param.len <= param.base.Length
      ensures param.Submitted() == state.ring[..PoppedLen(state.ring)]
      ensures writeBuf.buf == old(writeBuf.buf) && writeBuf.Valid()
              && writeBuf.Contents() == state.ring[PoppedLen(state.ring)..]
      ensures Separate(Params(state) + {param}) && BuffersHold(Busy(state), state.mem)
    {
      param := FetchOneParam();
      FetchKeeps(state.avail, param);
      ReadInto(param);
    }

    /** Accounts for the param just filled. */
    ghost method TakeInHand(param: ClientWriteParam)
      requires Sound(state) && Enabled(state, Pop(param)) && param == Fetched(state.avail, param)
      requires availParams == AfterFetch(state.avail) && isUserClosed == state.closed
      requires wire == state.sent && pending == state.flight.Keys && state.capacity == BUFFER_SIZE
      requires writeBuf.Valid() && writeBuf.buf.Length == BUFFER_SIZE
      requires writeBuf.Contents() == state.ring[PoppedLen(state.ring)..]
      requires Separate(Params(state) + {param}) && BuffersHold(Busy(state), state.mem)
      requires 0 <= param.len <= param.base.Length && param.Submitted() == state.ring[..PoppedLen(state.ring)]
      modifies `state
      ensures Valid() && state == Popped(old(state), param)
    {
      PoppedKeeps(state, param);
      OneMoreHolds(Busy(state), state.mem, param);
      SeparateSubset(Params(Popped(state, param)), Params(state) + {param});
      state := Popped(state, param);
    }

    /** Under the mutex, fetch a param and fill it from the ring. */
    method PopParam() returns (param: ClientWriteParam)
      requires Valid() && state.held == None && state.ring != []
      modifies `availParams, `state, writeBuf, set p | p in availParams, set p | p in availParams :: p.base
      ensures Valid() && writeBuf.buf == old(writeBuf.buf)
      ensures param == Fetched(old(state).avail, param) && Enabled(old(state), Pop(param))
              && state == Popped(old(state), param)
      ensures param in old(availParams) || (fresh(param) && fresh(param.base))
      ensures var ring, n := old(writeBuf.Contents()), Min(|old(writeBuf.Contents())|, 10240);
              && param.len == n && n <= param.base.Length && param.base[..n] == ring[..n]
              && writeBuf.Contents() == ring[n..]
    {
      param := FillParam();
      TakeInHand(param);
    }

    /** libuv takes the param just filled. */
    method Accept(param: ClientWriteParam)
      requires Valid() && state.held == Some(param)
      modifies `wire, `pending, `state
      ensures Valid() && Enabled(old(state), Submit(true)) && state == Next(old(state), Submit(true))
      ensures 0 <= param.len <= param.base.Length
      ensures wire == old(wire) + [param.base[..param.len]] && pending == old(pending) + {param}
    {
      ghost var params := Params(state);
      assert param in Busy(state);
      ReleaseKeeps(state, Submit(true));
      state := Next(state, Submit(true));
      SeparateSubset(Params(state), params);
      wire, pending := wire + [param.base[..param.len]], pending + {param};
    }

    /** libuv does not take it. */
    method Refuse(param: ClientWriteParam)
      requires Valid() && state.held == Some(param)
      modifies `availParams, `state
      ensures Valid() && Enabled(old(state), Submit(false)) && state == Next(old(state), Submit(false))
      ensures 0 <= param.len <= param.base.Length
      ensures availParams == old(availParams) + if |old(availParams)| <= 20 then [param] else []
    {
      ghost var params := Params(state);
      assert param in Busy(state);
      ReleaseKeeps(state, Submit(false));
      state := Next(state, Submit(false));
      SeparateSubset(Params(state), params);
      RecycleOneParam(param);
    }

    /** Submit the param just filled; `ok` is whether uv_write takes it. */
    method SubmitParam(param: ClientWriteParam, ok: bool)
      requires Valid() && state.held == Some(param)
      modifies `availParams, `wire, `pending, `state
      ensures Valid()
      ensures Enabled(old(state), Submit(ok)) && state == Next(old(state), Submit(ok))
      ensures 0 <= param.len <= param.base.Length
      ensures ok ==> && wire == old(wire) + [param.base[..param.len]] && pending == old(pending) + {param}
                     && availParams == old(availParams)
      ensures !ok ==> && wire == old(wire) && pending == old(pending)
                      && availParams == old(availParams) + if |old(availParams)| <= 20 then [param] else []
    {
      if ok {
        Accept(param);
      } else {
        Refuse(param);
      }
    }

    /** libuv is done with a param. */
    method RecycleCompleted(param: ClientWriteParam)
      requires Valid() && param in pending
      modifies `availParams, `pending, `state
      ensures Valid() && state == Next(old(state), Complete(param))
      ensures pending == old(pending) - {param}
      ensures availParams == old(availParams) + if |old(availParams)| <= 20 then [param] else []
    {
      ghost var params := Params(state);
      ReleaseKeeps(state, Complete(param));
      state := Next(state, Complete(param));
      SeparateSubset(Params(state), params);
      pending := pending - {param};
      RecycleOneParam(param);
    }

    static ghost function CompletionOf(req: ClientWriteParam?): seq<Step<ClientWriteParam>> {
      if req == null then []
      else
        var param: ClientWriteParam := req;
        [Complete(param)]
    }

    /** The beginning of _send. */
    method RecycleIfCompleted(req: ClientWriteParam?) returns (ghost steps: seq<Step<ClientWriteParam>>)
      requires Valid() && state.held == None && (req != null ==> req in pending)
      modifies `availParams, `pending, `state
      ensures Valid() && Params(state) <= old(Params(state))
      ensures DrainKeeps(old(state), state) && state.ring == old(state).ring
      ensures Runs(old(state), steps, state) && steps == CompletionOf(req)
    {
      steps := [];
      if req != null {
        RunSnoc(state, [], Complete(req));
        RecycleCompleted(req);
        steps := [] + [Complete(req)];
      }
    }

    /** One pass through the loop of _send. */
    method DrainPass(ok: bool) returns (ghost param: ClientWriteParam)
      requires Valid() && state.held == None && state.ring != []
      modifies this, writeBuf, set p | p in availParams, set p | p in availParams :: p.base
      ensures Valid() && writeBuf.buf == old(writeBuf.buf)
      ensures Runs(old(state), [Pop(param), Submit(ok)], state)
      ensures DrainKeeps(old(state), state) && |state.ring| < |old(state).ring|
      ensures forall p :: p in Params(state) ==> p in old(Params(state)) || (fresh(p) && fresh(p.base))
    {
      var p := PopParam();
      PoppedKeeps(old(state), p);
      PassIsRun(old(state), p, ok);
      SubmitParam(p, ok);
      param := p;
    }

    /** ... behind n others. */
    method DrainStep(oks: seq<bool>, n: nat, ghost start: State<ClientWriteParam>,
                     ghost drain: seq<Step<ClientWriteParam>>)
        returns (ghost more: seq<Step<ClientWriteParam>>)
      requires Valid() && state.held == None && state.ring != []
      requires DrainedSoFar(start, drain, oks, n, state)
      modifies this, writeBuf, set p | p in availParams, set p | p in availParams :: p.base
      ensures Valid() && writeBuf.buf == old(writeBuf.buf) && |state.ring| < |old(state).ring|
      ensures DrainedSoFar(start, more, oks, n + 1, state)
      ensures forall p :: p in Params(state) ==> p in old(Params(state)) || (fresh(p) && fresh(p.base))
    {
      ghost var param := DrainPass(Succeeds(oks, n));
      more := DrainOn(start, drain, oks, n, old(state), param, state);
    }

    /** The loop of _send, with the given outcomes of uv_write: a run of the pipeline that empties the ring. */
    method DrainAll(oks: seq<bool>) returns (ghost drain: seq<Step<ClientWriteParam>>)
      requires Valid() && state.held == None
      modifies this, writeBuf, Params(state), set p | p in Params(state) :: p.base
      ensures Valid() && writeBuf.buf == old(writeBuf.buf) && DrainKeeps(old(state), state)
      ensures forall p :: p in Params(state) ==> p in old(Params(state)) || (fresh(p) && fresh(p.base))
      ensures Runs(old(state), drain, state) && IsWholeDrain(drain, oks, state)
      ensures writeBuf.Contents() == []
    {
      ghost var start := state;
      drain := [];
      var n := 0;
      while !writeBuf.Empty()
        invariant Valid() && writeBuf.buf == old(writeBuf.buf) && state.held == None
        invariant DrainedSoFar(start, drain, oks, n, state)
        invariant forall p :: p in Params(state) ==> p in old(Params(state)) || (fresh(p) && fresh(p.base))
        decreases |state.ring|
      {
        drain := DrainStep(oks, n, start, drain);
        n := n + 1;
      }
    }

    /** With no failure, a drain submits what was in the ring. */
    static lemma AllSubmitted(s: State<ClientWriteParam>, req: ClientWriteParam?, first: seq<Step<ClientWriteParam>>,
                              drain: seq<Step<ClientWriteParam>>, oks: seq<bool>, t: State<ClientWriteParam>)
      requires InRange(s) && s.held == None && first == CompletionOf(req) && Runs(s, first + drain, t)
      requires IsWholeDrain(drain, oks, t) && false !in oks
      ensures Flatten(t.sent) == Flatten(s.sent) + s.ring
    {
      RunSplit(s, first, drain);
      var u := After(s, first);
      if req != null {
        var param: ClientWriteParam := req;
        OneStepRun(s, first, Complete(param), u);
        InRangeKept(s, Complete(param));
      }
      DrainSubmits(u, drain, oks, t);
    }

    /** _send: recycle a completed param, if this follows a completion, then drain the ring. */
    method DoSend(req: ClientWriteParam?, oks: seq<bool>) returns (ghost steps: seq<Step<ClientWriteParam>>)
      requires Valid() && state.held == None && (req != null ==> req in pending)
      modifies this, writeBuf, Params(state), set p | p in Params(state) :: p.base
      ensures Valid() && writeBuf.buf == old(writeBuf.buf) && DrainKeeps(old(state), state)
      ensures forall p :: p in Params(state) ==> p in old(Params(state)) || (fresh(p) && fresh(p.base))
      ensures Runs(old(state), steps, state)
      ensures CompletionOf(req) <= steps && IsWholeDrain(steps[|CompletionOf(req)|..], oks, state)
      ensures writeBuf.Contents() == []
      ensures false !in oks ==> Flatten(wire) == Flatten(old(wire)) + old(writeBuf.Contents())
    {
      ghost var first := RecycleIfCompleted(req);
      ghost var drain := DrainAll(oks);
      RunAppend(old(state), first, drain);
      steps := first + drain;
      assert steps[|first|..] == drain;
      if false !in oks {
        AllSubmitted(old(state), req, first, drain, oks, state);
      }
    }

    /** The completion callback. */
    method OnSend(req: ClientWriteParam, status: int, oks: seq<bool>) returns (ghost steps: seq<Step<ClientWriteParam>>)
      requires Valid() && state.held == None && req in pending
      modifies this, writeBuf, Params(state), set p | p in Params(state) :: p.base
      ensures Valid() && writeBuf.buf == old(writeBuf.buf) && DrainKeeps(old(state), state)
      ensures forall p :: p in Params(state) ==> p in old(Params(state)) || (fresh(p) && fresh(p.base))
      ensures Runs(old(state), steps, state) && steps != [] && steps[0] == Complete(req)
      ensures if status < 0 then steps[1..] == [] else IsWholeDrain(steps[1..], oks, state)
    {
      if status < 0 {
        steps := RecycleIfCompleted(req);
      } else {
        steps := DoSend(req, oks);
      }
    }

    /** The async callback; closing itself is not modelled. */
    method AsyncCB(oks: seq<bool>) returns (ghost steps: seq<Step<ClientWriteParam>>)
      requires Valid() && state.held == None
      modifies this, writeBuf, Params(state), set p | p in Params(state) :: p.base
      ensures Valid() && writeBuf.buf == old(writeBuf.buf) && DrainKeeps(old(state), state)
      ensures forall p :: p in Params(state) ==> p in old(Params(state)) || (fresh(p) && fresh(p.base))
      ensures Runs(old(state), steps, state)
      ensures if old(isUserClosed) then steps == [] else IsWholeDrain(steps, oks, state)
    {
      if isUserClosed {
        return [];
      }
      steps := DoSend(null, oks);
      assert steps[0..] == steps;
    }

    /** A thread's test. */
    method TestOf(who: nat, threads: Threads) returns (next: Threads, ghost steps: seq<Step<ClientWriteParam>>)
      requires Valid() && threads == Threads(state.senders, state.tested)
      modifies `state
      ensures Valid() && next == Threads(state.senders, state.tested)
      ensures Params(state) == old(Params(state)) && state.held == old(state).held
      ensures Answers(old(state), Tests(who), steps, state)
    {
      next, steps := threads, [];
      if who < |threads.senders| && threads.senders[who].call < |threads.senders[who].queue| {
        var open := KeepsOn(who);
        if open {
          RunSnoc(old(state), [], Test(who));
          next := threads.(tested := threads.tested + {who});
          steps := [] + [Test(who)];
        }
      }
    }

    /** A thread's write. */
    method PassOf(who: nat, threads: Threads) returns (next: Threads, ghost steps: seq<Step<ClientWriteParam>>)
      requires Valid() && threads == Threads(state.senders, state.tested)
      modifies this, writeBuf, writeBuf.buf
      ensures Valid() && writeBuf.buf == old(writeBuf.buf) && next == Threads(state.senders, state.tested)
      ensures Params(state) == old(Params(state)) && state.held == old(state).held
      ensures Answers(old(state), Passes(who), steps, state)
    {
      var senders := threads.senders;
      if who >= |senders| || senders[who].call >= |senders[who].queue| || who !in threads.tested {
        return threads, [];
      }
      RunSnoc(state, [], Write(who));
      var sender := senders[who];
      var iret := SendPass(sender.queue[sender.call], sender.iret, who);
      next := Threads(senders[who := Advance(sender, iret - sender.iret)], threads.tested - {who});
      steps := [] + [Write(who)];
    }

    /** One event. */
    method Happen(event: Event, threads: Threads) returns (next: Threads, ghost steps: seq<Step<ClientWriteParam>>)
      requires Valid() && state.held == None && threads == Threads(state.senders, state.tested)
      modifies this, writeBuf, writeBuf.buf, Params(state), set p | p in Params(state) :: p.base
      ensures Valid() && writeBuf.buf == old(writeBuf.buf) && state.held == None
      ensures next == Threads(state.senders, state.tested)
      ensures forall p :: p in Params(state) ==> p in old(Params(state)) || (fresh(p) && fresh(p.base))
      ensures Answers(old(state), event, steps, state)
    {
      next, steps := threads, [];
      match event
      case Tests(who) =>
        next, steps := TestOf(who, threads);
      case Passes(who) =>
        next, steps := PassOf(who, threads);
      case Signalled(oks) =>
        steps := AsyncCB(oks);
      case Receives(oks) =>
        steps := DoSend(null, oks);
        assert steps[0..] == steps;
      case Completes(status, oks) =>
        if pending != {} {
          var req :| req in pending;
          steps := OnSend(req, status, oks);
        }
      case Closes =>
        RunSnoc(state, [], SendPipeline.CloseByUser);
        CloseByUser();
        steps := [] + [SendPipeline.CloseByUser];
    }
  }

  lemma HistorySnoc(states: seq<State<ClientWriteParam>>, events: seq<Event>, runs: seq<seq<Step<ClientWriteParam>>>,
                    i: nat, steps: seq<Step<ClientWriteParam>>, t: State<ClientWriteParam>)
    requires i < |events| && History(states, events[..i], runs) && Answers(states[i], events[i], steps, t)
    ensures History(states + [t], events[..i + 1], runs + [steps])
  {
    forall k | 0 <= k < i + 1
      ensures Answers((states + [t])[k], events[..i + 1][k], (runs + [steps])[k], (states + [t])[k + 1])
    {
      if k < i {
        assert Answers(states[k], events[..i][k], runs[k], states[k + 1]);
      }
    }
  }

  function AllSteps<P>(runs: seq<seq<Step<P>>>): seq<Step<P>> {
    if runs == [] then [] else AllSteps(runs[..|runs| - 1]) + runs[|runs| - 1]
  }

  lemma HistoryFront(states: seq<State<ClientWriteParam>>, events: seq<Event>, runs: seq<seq<Step<ClientWriteParam>>>)
    requires History(states, events, runs) && events != []
    ensures var n := |events| - 1; History(states[..n + 1], events[..n], runs[..n])
  {
    var n := |events| - 1;
    forall k | 0 <= k < n
      ensures Answers(states[..n + 1][k], events[..n][k], runs[..n][k], states[..n + 1][k + 1])
    {
      assert Answers(states[k], events[k], runs[k], states[k + 1]);
    }
  }

  /** A history is one run. */
  lemma {:induction false} HistoryRuns(states: seq<State<ClientWriteParam>>, events: seq<Event>,
                                       runs: seq<seq<Step<ClientWriteParam>>>)
    requires History(states, events, runs)
    ensures Runs(states[0], AllSteps(runs), states[|events|])
  {
    if events == [] {
    } else {
      var n := |events| - 1;
      HistoryFront(states, events, runs);
      HistoryRuns(states[..n + 1], events[..n], runs[..n]);
      assert Answers(states[n], events[n], runs[n], states[n + 1]);
      RunAppend(states[0], AllSteps(runs[..n]), runs[n]);
    }
  }

  /** A new client with these senders, through any events. */
  method Run(queues: seq<seq<seq<Byte>>>, events: seq<Event>)
      returns (client: TCPClient, ghost states: seq<State<ClientWriteParam>>,
               ghost runs: seq<seq<Step<ClientWriteParam>>>)
    ensures client.Valid() && client.state.held == None
    ensures fresh(client) && fresh(client.writeBuf) && fresh(client.writeBuf.buf)
    ensures forall p :: p in client.pending ==>
                          && p in client.state.flight && 0 <= p.len <= p.base.Length
                          && p.base[..p.len] == client.state.flight[p]
    ensures forall p :: p in Params(client.state) ==> fresh(p) && fresh(p.base)
    ensures History(states, events, runs) && states[0] == Init(queues, BUFFER_SIZE) && states[|events|] == client.state
    ensures Reaches(queues, BUFFER_SIZE, AllSteps(runs), client.state)
  {
    client := new TCPClient(queues);
    var threads := Threads(seq(|queues|, i requires 0 <= i < |queues| => Sender(queues[i], 0, 0)), {});
    ghost var start := client.state;
    states, runs := [start], [];
    for i := 0 to |events|
      invariant client.Valid() && client.state.held == None
      invariant threads == Threads(client.state.senders, client.state.tested)
      invariant fresh(client) && fresh(client.writeBuf) && fresh(client.writeBuf.buf)
      invariant forall p :: p in Params(client.state) ==> fresh(p) && fresh(p.base)
      invariant History(states, events[..i], runs) && states[0] == start && states[i] == client.state
    {
      ghost var steps;
      threads, steps := client.Happen(events[i], threads);
      HistorySnoc(states, events, runs, i, steps, client.state);
      states, runs := states + [client.state], runs + [steps];
    }
    assert events[..|events|] == events;
    HistoryRuns(states, events, runs);
    ReachedInv(queues, BUFFER_SIZE, AllSteps(runs), client.state);
  }
}
