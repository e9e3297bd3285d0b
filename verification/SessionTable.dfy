/** The server's sessions and their contexts as a transition system: accepts with every outcome, and close
    completions. */
module SessionTable {
  import opened ParamPool

  /** `sids` is the sid field of each context; `closing` holds contexts whose handle is being closed after a failed
      read start. */
  datatype Table<C> = Table(lastId: nat, sessions: map<nat, C>, sids: map<C, nat>, avail: seq<C>, closing: set<C>)

  /** How far an accept gets. */
  datatype Outcome = InitFailed | AcceptFailed | ReadFailed | Opened

  datatype Step<C> =
    | Accept(spare: C, outcome: Outcome)
    | SessionClosed(sid: nat)
    | HandleClosed(ctx: C)

  ghost predicate Live<C>(t: Table<C>, c: C) {
    c in t.avail || c in t.closing || c in t.sessions.Values
  }

  ghost predicate Enabled<C>(t: Table<C>, step: Step<C>) {
    match step
    case Accept(spare, _) => t.avail == [] ==> !Live(t, spare)
    case SessionClosed(_) => true
    case HandleClosed(c) => c in t.closing
  }

  ghost function Next<C>(t: Table<C>, step: Step<C>): Table<C> {
    match step
    case Accept(spare, outcome) =>
      var c, rest, id := Fetched(t.avail, spare), AfterFetch(t.avail), t.lastId + 1;
      (match outcome
       case InitFailed => t.(avail := AfterRecycle(rest, c))
       case AcceptFailed => t.(avail := AfterRecycle(rest, c), lastId := id, sids := t.sids[c := id])
       case ReadFailed => t.(avail := rest, lastId := id, sids := t.sids[c := id], closing := t.closing + {c})
       case Opened =>
         t.(avail := rest, lastId := id, sids := t.sids[c := id], sessions := t.sessions[id := c]))
    case SessionClosed(sid) =>
      if sid in t.sessions then t.(sessions := t.sessions - {sid}, avail := AfterRecycle(t.avail, t.sessions[sid]))
      else t
    case HandleClosed(c) =>
      t.(closing := t.closing - {c}, avail := AfterRecycle(t.avail, c))
  }

  /** Each live session's context carries the session's id, so that no two share one. */
  ghost predicate Keyed<C>(t: Table<C>) {
    forall k :: k in t.sessions ==> 0 < k <= t.lastId && t.sessions[k] in t.sids && t.sids[t.sessions[k]] == k
  }

  /** Every context is in the pool, waiting for its handle to close, in use by one session, or released. */
  ghost predicate Owned<C>(t: Table<C>) {
    && IsPool(t.avail)
    && (forall c :: c in t.avail ==> c !in t.closing)
    && (forall k :: k in t.sessions ==> t.sessions[k] !in t.avail && t.sessions[k] !in t.closing)
  }

  ghost predicate Inv<C>(t: Table<C>) {
    Keyed(t) && Owned(t)
  }

  lemma KeyedKept<C>(t: Table<C>, step: Step<C>)
    requires Keyed(t) && Owned(t) && Enabled(t, step)
    ensures Keyed(Next(t, step))
  {
    if step.Accept? {
      FetchKeeps(t.avail, step.spare);
      assert forall k :: k in t.sessions ==> t.sessions[k] != Fetched(t.avail, step.spare);
    }
  }

  lemma OwnedKept<C>(t: Table<C>, step: Step<C>)
    requires Keyed(t) && Owned(t) && Enabled(t, step)
    ensures Owned(Next(t, step))
  {
    match step
    case Accept(spare, outcome) =>
      FetchKeeps(t.avail, spare);
      RecycleKeeps(AfterFetch(t.avail), Fetched(t.avail, spare));
    case SessionClosed(sid) =>
      if sid in t.sessions {
        RecycleKeeps(t.avail, t.sessions[sid]);
      }
    case HandleClosed(c) => RecycleKeeps(t.avail, c);
  }

  /** From t to u no session has come back: what is in u under an id handed out before was in t, with the same
      context. */
  ghost predicate OnlyNewIds<C>(t: Table<C>, u: Table<C>) {
    && t.lastId <= u.lastId
    && forall k :: k in u.sessions && k <= t.lastId ==> k in t.sessions && u.sessions[k] == t.sessions[k]
  }

  lemma StepKeepsInv<C>(t: Table<C>, step: Step<C>)
    requires Inv(t) && Enabled(t, step)
    ensures Inv(Next(t, step)) && OnlyNewIds(t, Next(t, step))
  {
    KeyedKept(t, step);
    OwnedKept(t, step);
  }

  /** A session stays in the table, with its context, through every step but its own closing. */
  lemma OthersStay<C>(t: Table<C>, step: Step<C>, k: nat)
    requires Keyed(t) && Enabled(t, step) && k in t.sessions && step != SessionClosed(k)
    ensures k in Next(t, step).sessions && Next(t, step).sessions[k] == t.sessions[k]
  {}

  lemma AcceptSessions<C>(t: Table<C>, c: C, outcome: Outcome)
    requires c == Fetched(t.avail, c)
    ensures Next(t, Accept(c, outcome)).sessions ==
            if outcome.Opened? then t.sessions[t.lastId + 1 := c] else t.sessions
  {}

  /** An accept with the context that the pool hands out. */
  lemma AcceptKeeps<C>(t: Table<C>, c: C, outcome: Outcome)
    requires Keyed(t) && Owned(t) && Enabled(t, Accept(c, outcome)) && c == Fetched(t.avail, c)
    ensures var u := Next(t, Accept(c, outcome));
            && Keyed(u) && Owned(u)
            && u.sessions == if outcome.Opened? then t.sessions[t.lastId + 1 := c] else t.sessions
    ensures c !in t.sessions.Values && c !in AfterFetch(t.avail)
  {
    FetchKeeps(t.avail, c);
    AcceptSessions(t, c, outcome);
    KeyedKept(t, Accept(c, outcome));
    OwnedKept(t, Accept(c, outcome));
  }

  ghost predicate CanRun<C>(t: Table<C>, steps: seq<Step<C>>)
    decreases |steps|
  {
    steps == [] || (Enabled(t, steps[0]) && CanRun(Next(t, steps[0]), steps[1..]))
  }

  ghost function After<C>(t: Table<C>, steps: seq<Step<C>>): Table<C>
    requires CanRun(t, steps)
    decreases |steps|
  {
    if steps == [] then t else After(Next(t, steps[0]), steps[1..])
  }

  /** Whatever clients connect and leave in whatever order, the table stays consistent and every new session has a new
      id. */
  lemma {:induction false} RunKeepsInv<C>(t: Table<C>, steps: seq<Step<C>>)
    requires Inv(t) && CanRun(t, steps)
    ensures Inv(After(t, steps)) && OnlyNewIds(t, After(t, steps))
    decreases |steps|
  {
    if steps == [] {
    } else {
      StepKeepsInv(t, steps[0]);
      RunKeepsInv(Next(t, steps[0]), steps[1..]);
    }
  }

  lemma {:induction false} RunSnoc<C>(t: Table<C>, steps: seq<Step<C>>, last: Step<C>)
    requires CanRun(t, steps) && Enabled(After(t, steps), last)
    ensures CanRun(t, steps + [last]) && After(t, steps + [last]) == Next(After(t, steps), last)
    decreases |steps|
  {
    var all := steps + [last];
    if steps == [] {
      assert all[1..] == [];
      assert CanRun(Next(t, last), []);
    } else {
      RunSnoc(Next(t, steps[0]), steps[1..], last);
      assert all[1..] == steps[1..] + [last];
    }
  }

  /** A session that no step of a run closes is still there, with its context. */
  lemma {:induction false} StaysOpen<C>(t: Table<C>, steps: seq<Step<C>>, k: nat)
    requires Inv(t) && CanRun(t, steps) && k in t.sessions && SessionClosed(k) !in steps
    ensures k in After(t, steps).sessions && After(t, steps).sessions[k] == t.sessions[k]
    decreases |steps|
  {
    if steps == [] {
    } else {
      assert steps[0] in steps;
      OthersStay(t, steps[0], k);
      StepKeepsInv(t, steps[0]);
      assert forall s :: s in steps[1..] ==> s in steps;
      StaysOpen(Next(t, steps[0]), steps[1..], k);
    }
  }

  /** A session that has closed never returns: not in any run of accepts and closes that follows. */
  lemma ClosedForGood<C>(t: Table<C>, sid: nat, steps: seq<Step<C>>)
    requires Inv(t) && sid in t.sessions
    requires CanRun(Next(t, SessionClosed(sid)), steps)
    ensures sid !in After(Next(t, SessionClosed(sid)), steps).sessions
  {
    StepKeepsInv(t, SessionClosed(sid));
    RunKeepsInv(Next(t, SessionClosed(sid)), steps);
  }

  function Init<C>(): Table<C> {
    Table(0, map[], map[], [], {})
  }

  lemma InitInv<C>()
    ensures Inv(Init<C>())
  {}
}
