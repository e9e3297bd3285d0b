/** Whether everything can still be sent, as far as ring and pool are concerned. The loop thread drains whenever there
    is something to drain here; what its being woken means for the senders is a matter of its own. */
module Progress {
  import opened Bytes
  import opened ParamPool
  import opened SendPipeline

  /** The loop thread and libuv have nothing in hand. */
  ghost predicate Calm<P>(s: State<P>) {
    s.held == None && s.flight == map[]
  }

  /** What steps of the loop thread and libuv leave alone. */
  ghost predicate SameSenders<P>(s: State<P>, t: State<P>) {
    && t.senders == s.senders && t.closed == s.closed && t.tested == s.tested
    && t.capacity == s.capacity && t.failures == s.failures
  }

  lemma {:induction false} CompleteAll<P>(s: State<P>) returns (steps: seq<Step<P>>)
    requires InRange(s) && s.held == None
    ensures CanRun(s, steps)
    ensures var t := After(s, steps); InRange(t) && Calm(t) && SameSenders(s, t) && t.ring == s.ring
    decreases |s.flight.Keys|
  {
    if s.flight == map[] {
      return [];
    }
    var p :| p in s.flight;
    var t := Next(s, Complete(p));
    assert t.flight.Keys == s.flight.Keys - {p};
    var rest := CompleteAll(t);
    steps := [Complete(p)] + rest;
    assert steps[1..] == rest;
  }

  lemma ThreeSteps<P>(s: State<P>, a: Step<P>, b: Step<P>, c: Step<P>)
    requires InRange(s) && Enabled(s, a) && Enabled(Next(s, a), b)
    requires InRange(Next(s, a)) && InRange(Next(Next(s, a), b)) && Enabled(Next(Next(s, a), b), c)
    ensures CanRun(s, [a, b, c]) && After(s, [a, b, c]) == Next(Next(Next(s, a), b), c)
  {
    RunSnoc(s, [], a);
    RunSnoc(s, [] + [a], b);
    RunSnoc(s, [] + [a] + [b], c);
    assert [] + [a] + [b] + [c] == [a, b, c];
  }

  /** Completing everything makes room in the pool, so that draining the ring never needs a second param. */
  lemma {:induction false} EmptyRing<P>(s: State<P>, spare: P) returns (steps: seq<Step<P>>)
    requires InRange(s) && Calm(s)
    ensures CanRun(s, steps)
    ensures var t := After(s, steps); InRange(t) && Calm(t) && SameSenders(s, t) && t.ring == []
    decreases |s.ring|
  {
    if s.ring == [] {
      return [];
    }
    var p := Fetched(s.avail, spare);
    var a := Next(s, Pop(spare));
    var b := Next(a, Submit(true));
    var c := Next(b, Complete(p));
    assert c.flight == map[];
    var rest := EmptyRing(c, spare);
    ThreeSteps(s, Pop(spare), Submit(true), Complete(p));
    RunAppend(s, [Pop(spare), Submit(true), Complete(p)], rest);
    steps := [Pop(spare), Submit(true), Complete(p)] + rest;
  }

  /** A sender can come to its end in an open client; in a closed one only when a single write that it has tested for
      already is all it needs. */
  ghost predicate CanReturn<P>(s: State<P>, i: nat)
    requires InRange(s) && i < |s.senders|
  {
    var sender := s.senders[i];
    || Done(sender)
    || !s.closed
    || (&& i in s.tested && sender.call + 1 == |sender.queue|
        && |sender.queue[sender.call]| - sender.iret <= s.capacity)
  }

  /** t is s but for one sender. */
  ghost predicate OnlySender<P>(s: State<P>, i: nat, t: State<P>) {
    && |t.senders| == |s.senders| && t.closed == s.closed && t.capacity == s.capacity && t.failures == s.failures
    && forall j :: 0 <= j < |s.senders| && j != i ==> t.senders[j] == s.senders[j] && (j in t.tested <==> j in s.tested)
  }

  lemma WriteThenDrain<P>(s: State<P>, spare: P, i: nat) returns (steps: seq<Step<P>>, t: State<P>)
    requires InRange(s) && Calm(s) && s.ring == [] && Enabled(s, Write(i))
    ensures Runs(s, steps, t) && InRange(t) && Calm(t) && t.ring == [] && OnlySender(s, i, t)
    ensures var sender := s.senders[i];
            t.senders[i] == Advance(sender, Min(|sender.queue[sender.call]| - sender.iret, s.capacity))
  {
    var u := Next(s, Write(i));
    InRangeKept(s, Write(i));
    RunSnoc(s, [], Write(i));
    var drain := EmptyRing(u, spare);
    t := After(u, drain);
    RunAppend(s, [] + [Write(i)], drain);
    steps := [] + [Write(i)] + drain;
  }

  lemma TestThenWrite<P>(s: State<P>, spare: P, i: nat) returns (steps: seq<Step<P>>, t: State<P>)
    requires InRange(s) && Calm(s) && s.ring == [] && Enabled(s, Test(i))
    ensures Runs(s, steps, t) && InRange(t) && Calm(t) && t.ring == [] && OnlySender(s, i, t)
    ensures var sender := s.senders[i];
            t.senders[i] == Advance(sender, Min(|sender.queue[sender.call]| - sender.iret, s.capacity))
  {
    var u := Next(s, Test(i));
    RunSnoc(s, [], Test(i));
    var rest;
    rest, t := WriteThenDrain(u, spare, i);
    RunAppend(s, [] + [Test(i)], rest);
    steps := [] + [Test(i)] + rest;
  }

  /** One sender's calls, one ring-full after the other. */
  lemma {:induction false} FinishSender<P>(s: State<P>, spare: P, i: nat) returns (steps: seq<Step<P>>, t: State<P>)
    requires InRange(s) && Calm(s) && s.ring == [] && s.capacity > 0 && i < |s.senders| && CanReturn(s, i)
    ensures Runs(s, steps, t) && InRange(t) && Calm(t) && t.ring == [] && OnlySender(s, i, t) && Done(t.senders[i])
    decreases |s.senders[i].queue| - s.senders[i].call,
              if Done(s.senders[i]) then 0 else |s.senders[i].queue[s.senders[i].call]| - s.senders[i].iret
  {
    if Done(s.senders[i]) {
      return [], s;
    }
    if s.closed {
      steps, t := WriteThenDrain(s, spare, i);
    } else {
      var first, u := TestThenWrite(s, spare, i);
      var rest;
      rest, t := FinishSender(u, spare, i);
      RunAppend(s, first, rest);
      steps := first + rest;
    }
  }

  lemma {:induction false} FinishFrom<P>(s: State<P>, spare: P, k: nat) returns (steps: seq<Step<P>>, t: State<P>)
    requires InRange(s) && Calm(s) && s.ring == [] && s.capacity > 0 && k <= |s.senders|
    requires forall j :: 0 <= j < k ==> Done(s.senders[j])
    requires forall j :: k <= j < |s.senders| ==> CanReturn(s, j)
    ensures Runs(s, steps, t) && AllSent(t) && Calm(t) && t.ring == [] && t.failures == s.failures
    decreases |s.senders| - k
  {
    if k == |s.senders| {
      return [], s;
    }
    var first, u := FinishSender(s, spare, k);
    forall j | k < j < |u.senders|
      ensures CanReturn(u, j)
    {
      assert CanReturn(s, j);
    }
    var rest;
    rest, t := FinishFrom(u, spare, k + 1);
    RunAppend(s, first, rest);
    steps := first + rest;
  }

  /** Every Send has returned and every byte was given to libuv, without another failure. */
  ghost predicate Finished<P>(s: State<P>, t: State<P>) {
    AllSent(t) && t.ring == [] && t.held == None && t.failures == s.failures
  }

  lemma Drain<P>(s: State<P>, spare: P) returns (steps: seq<Step<P>>)
    requires Inv(s)
    ensures CanRun(s, steps)
    ensures var t := After(s, steps); InRange(t) && Calm(t) && SameSenders(s, t) && t.ring == []
  {
    var first: seq<Step<P>> := [];
    if s.held.Some? {
      RunSnoc(s, [], Submit(true));
      InRangeKept(s, Submit(true));
      first := [] + [Submit(true)];
    }
    var t := After(s, first);
    var complete := CompleteAll(t);
    var drain := EmptyRing(After(t, complete), spare);
    RunAppend(t, complete, drain);
    RunAppend(s, first, complete + drain);
    steps := first + (complete + drain);
  }

  lemma Finish<P>(s: State<P>, spare: P) returns (steps: seq<Step<P>>)
    requires Inv(s) && s.capacity > 0 && forall i :: 0 <= i < |s.senders| ==> CanReturn(s, i)
    ensures CanRun(s, steps) && Finished(s, After(s, steps))
  {
    steps := Drain(s, spare);
    var u := After(s, steps);
    forall i | 0 <= i < |u.senders|
      ensures CanReturn(u, i)
    {
      assert CanReturn(s, i);
    }
    var rest, t := FinishFrom(u, spare, 0);
    RunAppend(s, steps, rest);
    steps := steps + rest;
  }

  /** In a closed client a sender writes at most once more, and only if it has tested for it already. */
  ghost predicate OnceMore(before: Sender, after: Sender, tested: bool, capacity: nat) {
    || after == before
    || (&& tested && before.call < |before.queue| && after.queue == before.queue
        && (|| after.call == before.call
            || (after.call == before.call + 1 && |before.queue[before.call]| - before.iret <= capacity)))
  }

  lemma {:induction false} ClosedRun<P>(s: State<P>, steps: seq<Step<P>>)
    requires CanRun(s, steps) && s.closed
    ensures var t := After(s, steps);
            && t.closed && |t.senders| == |s.senders|
            && forall i :: 0 <= i < |s.senders| ==> OnceMore(s.senders[i], t.senders[i], i in s.tested, s.capacity)
    decreases |steps|
  {
    if steps == [] {
    } else {
      ClosedRun(Next(s, steps[0]), steps[1..]);
    }
  }

  /** A ring with room can always be emptied and filled again; so everything can be sent, exactly unless the user has
      closed the client on a sender that needs more than a write it has already tested for. `spare` is any param. */
  lemma CanFinishExactly<P>(s: State<P>, spare: P)
    requires Inv(s) && s.capacity > 0
    ensures (exists steps :: CanRun(s, steps) && Finished(s, After(s, steps)))
       <==> (forall i :: 0 <= i < |s.senders| ==> CanReturn(s, i))
  {
    if i :| 0 <= i < |s.senders| && !CanReturn(s, i) {
      forall steps | CanRun(s, steps)
        ensures !Finished(s, After(s, steps))
      {
        ClosedRun(s, steps);
        assert OnceMore(s.senders[i], After(s, steps).senders[i], i in s.tested, s.capacity);
      }
    } else {
      var run := Finish(s, spare);
      assert exists steps :: CanRun(s, steps) && Finished(s, After(s, steps));
    }
  }

  /** Without any capacity a sender with a byte to send stays where it is. */
  lemma {:induction false} NoCapacityNoSend<P>(s: State<P>, steps: seq<Step<P>>, i: nat)
    requires CanRun(s, steps) && s.capacity == 0 && |s.ring| == 0
    requires i < |s.senders| && s.senders[i].call < |s.senders[i].queue|
    requires s.senders[i].iret < |s.senders[i].queue[s.senders[i].call]|
    ensures var t := After(s, steps); i < |t.senders| && t.senders[i] == s.senders[i]
    decreases |steps|
  {
    if steps == [] {
    } else {
      NoCapacityNoSend(Next(s, steps[0]), steps[1..], i);
    }
  }
}
