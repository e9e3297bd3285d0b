/** What the events a client goes through say about where it ends up. */
module Schedules {
  import opened Bytes
  import opened SendPipeline
  import opened TcpClient

  /** Between events the loop thread has nothing in hand. */
  ghost predicate AtRest(s: State<ClientWriteParam>) {
    InRange(s) && s.held == None
  }

  lemma OneKeepsRest(s: State<ClientWriteParam>, steps: seq<Step<ClientWriteParam>>, t: State<ClientWriteParam>)
    requires AtRest(s) && Runs(s, steps, t)
    requires steps == [] || (|steps| == 1 && !steps[0].Pop? && !steps[0].Submit?)
    ensures AtRest(t) && t.capacity == s.capacity && t.failures == s.failures
  {
    if steps != [] {
      OneStepRun(s, steps, steps[0], t);
      InRangeKept(s, steps[0]);
    }
  }

  lemma DrainKeepsRest(s: State<ClientWriteParam>, steps: seq<Step<ClientWriteParam>>, oks: seq<bool>,
                       t: State<ClientWriteParam>, nothing: bool)
    requires AtRest(s) && Runs(s, steps, t)
    requires if nothing then steps == [] else IsWholeDrain(steps, oks, t)
    ensures AtRest(t) && DrainKeeps(s, t)
    ensures false !in oks ==> t.failures == s.failures
  {
    if !nothing {
      var n: nat :| IsDrain(steps, oks, n);
      DrainRun(s, steps, oks, n);
      if false !in oks {
        NoneFailed(oks, n);
      }
    }
  }

  /** The outcomes of its uv_writes decide whether an event adds to the failures. */
  lemma AnswerKeeps(s: State<ClientWriteParam>, event: Event, steps: seq<Step<ClientWriteParam>>,
                    t: State<ClientWriteParam>)
    requires AtRest(s) && Answers(s, event, steps, t)
    ensures AtRest(t) && t.capacity == s.capacity
    ensures false !in Oks(event) ==> t.failures == s.failures
  {
    match event
    case Signalled(oks) => DrainKeepsRest(s, steps, oks, t, s.closed);
    case Receives(oks) => DrainKeepsRest(s, steps, oks, t, false);
    case Completes(status, oks) =>
      if s.flight != map[] {
        InRangeKept(s, steps[0]);
        DrainKeepsRest(Next(s, steps[0]), steps[1..], oks, t, status < 0);
      }
    case _ => OneKeepsRest(s, steps, t);
  }

  /** A client none of whose uv_writes fails has counted no failure. */
  lemma {:induction false} NoFailures(states: seq<State<ClientWriteParam>>, events: seq<Event>,
                                      runs: seq<seq<Step<ClientWriteParam>>>)
    requires History(states, events, runs) && AtRest(states[0])
    ensures AtRest(states[|events|])
    ensures NoWriteFails(events) ==> states[|events|].failures == states[0].failures
  {
    if events == [] {
    } else {
      var n := |events| - 1;
      HistoryFront(states, events, runs);
      NoFailures(states[..n + 1], events[..n], runs[..n]);
      assert Answers(states[n], events[n], runs[n], states[n + 1]);
      AnswerKeeps(states[n], events[n], runs[n], states[n + 1]);
    }
  }

  // ---- A schedule that sends everything ----

  /** The only sender passes, and the loop thread drains the ring. */
  function Rounds(m: nat): seq<Event> {
    if m == 0 then [] else Rounds(m - 1) + [Tests(0), Passes(0), Signalled([])]
  }

  lemma {:induction false} RoundsSucceed(m: nat)
    ensures |Rounds(m)| == 3 * m && NoWriteFails(Rounds(m))
  {
    if m == 0 {
    } else {
      RoundsSucceed(m - 1);
    }
  }

  /** A pass that finds the ring empty. */
  function Passed(sender: Sender): (next: Sender)
    requires CursorInRange(sender)
    ensures CursorInRange(next)
  {
    if Done(sender) then sender
    else Advance(sender, Min(|sender.queue[sender.call]| - sender.iret, BUFFER_SIZE))
  }

  /** How many such passes the sender's calls take. */
  function Needed(sender: Sender): nat
    requires CursorInRange(sender)
    decreases |sender.queue| - sender.call, if Done(sender) then 0 else |sender.queue[sender.call]| - sender.iret
  {
    if Done(sender) then 0 else 1 + Needed(Passed(sender))
  }

  /** The ring is empty and nothing has failed. */
  ghost predicate Clear(s: State<ClientWriteParam>) {
    && AtRest(s) && s.ring == [] && !s.closed && s.tested == {} && s.capacity == BUFFER_SIZE && s.failures == 0
    && |s.senders| == 1
  }

  lemma TestAndPass(a: State<ClientWriteParam>, test: seq<Step<ClientWriteParam>>, b: State<ClientWriteParam>,
                    pass: seq<Step<ClientWriteParam>>, c: State<ClientWriteParam>)
    requires Clear(a) && Answers(a, Tests(0), test, b) && Answers(b, Passes(0), pass, c)
    ensures c.senders == [Passed(a.senders[0])] && !c.closed && c.tested == {}
  {
    if !Done(a.senders[0]) {
      OneStepRun(a, test, Test(0), b);
      OneStepRun(b, pass, Write(0), c);
    }
  }

  lemma OneRound(a: State<ClientWriteParam>, test: seq<Step<ClientWriteParam>>, b: State<ClientWriteParam>,
                 pass: seq<Step<ClientWriteParam>>, c: State<ClientWriteParam>,
                 drain: seq<Step<ClientWriteParam>>, d: State<ClientWriteParam>)
    requires Clear(a) && Answers(a, Tests(0), test, b) && Answers(b, Passes(0), pass, c)
    requires Answers(c, Signalled([]), drain, d)
    ensures Clear(d) && d.senders == [Passed(a.senders[0])]
  {
    AnswerKeeps(a, Tests(0), test, b);
    AnswerKeeps(b, Passes(0), pass, c);
    AnswerKeeps(c, Signalled([]), drain, d);
    TestAndPass(a, test, b, pass, c);
    DrainKeepsRest(c, drain, [], d, false);
  }

  lemma HistoryPrefix(states: seq<State<ClientWriteParam>>, events: seq<Event>,
                      runs: seq<seq<Step<ClientWriteParam>>>, k: nat)
    requires History(states, events, runs) && k <= |events|
    ensures History(states[..k + 1], events[..k], runs[..k])
  {
    forall i | 0 <= i < k
      ensures Answers(states[..k + 1][i], events[..k][i], runs[..k][i], states[..k + 1][i + 1])
    {
      assert Answers(states[i], events[i], runs[i], states[i + 1]);
    }
  }

  lemma {:induction false} AfterRounds(states: seq<State<ClientWriteParam>>, m: nat,
                                       runs: seq<seq<Step<ClientWriteParam>>>)
    requires History(states, Rounds(m), runs) && Clear(states[0])
    ensures |Rounds(m)| == 3 * m && Clear(states[3 * m])
    ensures var left := Needed(states[0].senders[0]);
            Needed(states[3 * m].senders[0]) == if left <= m then 0 else left - m
  {
    RoundsSucceed(m);
    if m == 0 {
    } else {
      var k := 3 * (m - 1);
      RoundsSucceed(m - 1);
      HistoryPrefix(states, Rounds(m), runs, k);
      assert Rounds(m)[..k] == Rounds(m - 1);
      AfterRounds(states[..k + 1], m - 1, runs[..k]);
      assert Answers(states[k], Rounds(m)[k], runs[k], states[k + 1]);
      assert Answers(states[k + 1], Rounds(m)[k + 1], runs[k + 1], states[k + 2]);
      assert Answers(states[k + 2], Rounds(m)[k + 2], runs[k + 2], states[k + 3]);
      OneRound(states[k], runs[k], states[k + 1], runs[k + 1], states[k + 2], runs[k + 2], states[k + 3]);
    }
  }

  /** Enough rounds send everything. */
  lemma RoundsSendAll(queue: seq<seq<Byte>>, states: seq<State<ClientWriteParam>>, m: nat,
                      runs: seq<seq<Step<ClientWriteParam>>>)
    requires History(states, Rounds(m), runs) && states[0] == Init([queue], BUFFER_SIZE)
    requires Needed(Sender(queue, 0, 0)) <= m
    ensures Drained(states[|Rounds(m)|]) && AllSent(states[|Rounds(m)|])
  {
    AfterRounds(states, m, runs);
  }
}
