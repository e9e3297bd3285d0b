/** The server of tcpserver.cpp: session table, context pool, write params and broadcast. */
module TcpServer {
  import opened Bytes
  import opened ParamPool
  import opened SessionTable

  class Session {
    const ctx: SessionCtx

    /** The constructor and _init: context and session point at each other. */
    constructor (ctx: SessionCtx)
      modifies ctx
      ensures this.ctx == ctx && ctx.parentSession == this && ctx.sid == old(ctx.sid)
    {
      this.ctx := ctx;
      new;
      ctx.parentSession := this;
    }
  }

  class SessionCtx {
    var sid: nat
    var parentSession: Session?

    constructor ()
      ensures parentSession == null
    {
      sid := *;
      parentSession := null;
    }
  }

  /** Bytes for a connection. */
  datatype Write = Write(target: SessionCtx, data: seq<Byte>)

  class WriteParam {
    var base: array<Byte>
    var bufTrueLen: int
    var len: int
    var target: SessionCtx?

    /** Alloc. */
    constructor ()
      ensures fresh(base) && base.Length == bufTrueLen == BUFFER_SIZE
    {
      base := new Byte[BUFFER_SIZE];
      bufTrueLen := BUFFER_SIZE;
      len := BUFFER_SIZE;
      target := null;
    }

    ghost predicate Holds(w: Write)
      reads this, base
    {
      target == w.target && 0 <= len <= base.Length && base[..len] == w.data
    }
  }

  /** What can happen to the server, in any order: libuv decides which handle or write it is done with. */
  datatype Event =
    | Connects(status: int, tcpInit: int, accept: int, readStart: int)
    | Leaves(sid: nat)
    | HandleCloses
    | Broadcasts(data: seq<Byte>, excludeIds: seq<int>, oks: seq<bool>)
    | Completes

  ghost predicate Increasing(ids: seq<nat>) {
    forall i, j :: 0 <= i < j < |ids| ==> ids[i] < ids[j]
  }

  /** After the sessions outside `rest`: those not excluded have been chosen, and what is left of the list still tells
      which of the rest are. */
  ghost predicate Chosen(ids: seq<nat>, keys: set<nat>, rest: set<nat>, exclude: seq<int>, excludeIds: seq<int>) {
    && rest <= keys && Increasing(ids)
    && (forall j, k :: j in ids && k in rest ==> j < k)
    && (forall k :: k in ids <==> k in keys && k !in rest && k !in excludeIds)
    && (forall k :: k in rest ==> (k in exclude <==> k in excludeIds))
  }

  /** The iteration moves past id, the least of the rest. */
  lemma Past(ids: seq<nat>, keys: set<nat>, rest: set<nat>, exclude: seq<int>, left: seq<int>, excludeIds: seq<int>,
             id: nat)
    requires Chosen(ids, keys, rest, exclude, excludeIds)
    requires id in rest && forall k :: k in rest ==> id <= k
    requires forall k :: k != id ==> (k in left <==> k in exclude)
    ensures Chosen(if id in exclude then ids else ids + [id], keys, rest - {id}, left, excludeIds)
  {
    assert forall i :: 0 <= i < |ids| ==> ids[i] in ids;
  }

  lemma Erase(ids: seq<int>, at: nat)
    requires at < |ids|
    ensures forall k :: k != ids[at] ==> (k in ids <==> k in ids[..at] + ids[at + 1..])
    ensures multiset(ids[..at] + ids[at + 1..]) == multiset(ids) - multiset{ids[at]}
  {
    assert ids == ids[..at] + [ids[at]] + ids[at + 1..];
  }

  lemma {:induction false} Least(s: set<nat>) returns (m: nat)
    requires s != {}
    ensures m in s && forall k :: k in s ==> m <= k
  {
    m :| m in s;
    var t := s - {m};
    assert forall k :: k in s ==> k == m || k in t;
    if t != {} {
      var r := Least(t);
      m := Min(m, r);
    }
  }

  function CtxOf(sessions: map<nat, Session>): map<nat, SessionCtx> {
    map k | k in sessions :: sessions[k].ctx
  }

  /** One _send of the data for each of these contexts. */
  function Attempted(contexts: map<nat, SessionCtx>, ids: seq<nat>, data: seq<Byte>): seq<Write>
    requires forall k :: k in ids ==> k in contexts
  {
    seq(|ids|, i requires 0 <= i < |ids| => Write(contexts[ids[i]], data))
  }

  lemma AttemptedSnoc(contexts: map<nat, SessionCtx>, ids: seq<nat>, id: nat, data: seq<Byte>)
    requires id in contexts && forall k :: k in ids ==> k in contexts
    ensures Attempted(contexts, ids + [id], data) == Attempted(contexts, ids, data) + [Write(contexts[id], data)]
  {}

  /** From f to g these writes have been submitted, those that succeed, each with a param of its own that was not in
      flight; nothing else has changed. */
  ghost predicate Submitted(f: map<WriteParam, Write>, writes: seq<Write>, used: seq<Option<WriteParam>>,
                            oks: seq<bool>, g: map<WriteParam, Write>)
  {
    && |used| == |writes|
    && (forall i :: 0 <= i < |used| ==> (used[i].Some? <==> Succeeds(oks, i)))
    && (forall i :: 0 <= i < |used| && used[i].Some? ==>
                      used[i].value !in f && used[i].value in g && g[used[i].value] == writes[i])
    && (forall i, j :: 0 <= i < j < |used| && used[i].Some? ==> used[i] != used[j])
    && (forall p :: p in f ==> p in g && g[p] == f[p])
    && (forall p :: p in g ==> p in f || Some(p) in used)
  }

  lemma SubmittedMeans(f: map<WriteParam, Write>, writes: seq<Write>, used: seq<Option<WriteParam>>, oks: seq<bool>,
                       g: map<WriteParam, Write>)
    requires Submitted(f, writes, used, oks, g)
    ensures g.Keys == f.Keys + set i | 0 <= i < |used| && used[i].Some? :: used[i].value
    ensures forall i :: 0 <= i < |used| ==> (used[i].Some? <==> (i < |oks| ==> oks[i]))
  {
    forall p | p in g && p !in f
      ensures exists i :: 0 <= i < |used| && used[i].Some? && used[i].value == p
    {
      var i :| 0 <= i < |used| && used[i] == Some(p);
      assert used[i].Some?;
    }
  }

  lemma SubmittedSnoc(f: map<WriteParam, Write>, writes: seq<Write>, used: seq<Option<WriteParam>>, oks: seq<bool>,
                      g: map<WriteParam, Write>, w: Write, u: Option<WriteParam>)
    requires Submitted(f, writes, used, oks, g)
    requires (u.Some? <==> Succeeds(oks, |writes|)) && (u.Some? ==> u.value !in g)
    ensures Submitted(f, writes + [w], used + [u], oks, if u.Some? then g[u.value := w] else g)
  {
    forall i | 0 <= i < |used|
      ensures used[i].Some? ==> used[i] != u
    {}
    assert forall o :: o in used ==> o in used + [u];
    assert u in used + [u];
  }

  function Reached(tcpInit: int, accept: int, readStart: int): (o: Outcome)
    ensures o == Opened <==> tcpInit == accept == readStart == 0
    ensures o == ReadFailed <==> tcpInit == accept == 0 && readStart != 0
    ensures o == AcceptFailed <==> tcpInit == 0 && accept != 0
  {
    if tcpInit != 0 then InitFailed
    else if accept != 0 then AcceptFailed
    else if readStart != 0 then ReadFailed
    else Opened
  }

  /** What of the server events change. */
  datatype View = View(table: Table<SessionCtx>, flight: map<WriteParam, Write>, attempts: seq<Write>)

  /** What an event did: a step of the session table; sends to these sessions, with these params where uv_write
      succeeded; the end of a write. */
  datatype Effect =
    | Nothing
    | Moves(step: SessionTable.Step<SessionCtx>)
    | Sends(ids: seq<nat>, used: seq<Option<WriteParam>>)
    | Ends(param: WriteParam)

  ghost predicate MovesTable(t: Table<SessionCtx>, effect: Effect, u: Table<SessionCtx>) {
    effect.Moves? && Enabled(t, effect.step) && u == Next(t, effect.step)
  }

  ghost predicate SameWrites(v: View, w: View) {
    w.flight == v.flight && w.attempts == v.attempts
  }

  /** What each event makes of the server: accepts and closings are steps of the session table and change nothing else;
      broadcasts and completions leave the table alone. */
  ghost predicate Answers(v: View, event: Event, effect: Effect, w: View) {
    match event
    case Connects(status, tcpInit, accept, readStart) =>
      && SameWrites(v, w)
      && if status != 0 then effect == Nothing && w.table == v.table
         else
           && MovesTable(v.table, effect, w.table)
           && effect.step.Accept? && effect.step.outcome == Reached(tcpInit, accept, readStart)
           && w.table.sessions.Keys ==
              v.table.sessions.Keys + (if tcpInit == accept == readStart == 0 then {v.table.lastId + 1} else {})
           && forall k :: k in v.table.sessions ==> w.table.sessions[k] == v.table.sessions[k]
    case Leaves(sid) =>
      && SameWrites(v, w) && effect == Moves(SessionTable.SessionClosed(sid)) && MovesTable(v.table, effect, w.table)
      && w.table.sessions == v.table.sessions - {sid}
    case HandleCloses =>
      && SameWrites(v, w)
      && if v.table.closing == {} then effect == Nothing && w.table == v.table
         else
           && MovesTable(v.table, effect, w.table) && effect.step.HandleClosed? && effect.step.ctx in v.table.closing
           && w.table.sessions == v.table.sessions && w.table.closing == v.table.closing - {effect.step.ctx}
    case Broadcasts(data, excludeIds, oks) =>
      && effect.Sends? && w.table == v.table
      && (forall i, j :: 0 <= i < j < |effect.ids| ==> effect.ids[i] < effect.ids[j])
      && (forall k :: k in effect.ids <==> data != [] && k in v.table.sessions && k !in excludeIds)
      && var writes := Attempted(v.table.sessions, effect.ids, data);
         w.attempts == v.attempts + writes && Submitted(v.flight, writes, effect.used, oks, w.flight)
    case Completes =>
      && w.table == v.table && w.attempts == v.attempts
      && if v.flight == map[] then effect == Nothing && w.flight == v.flight
         else effect.Ends? && effect.param in v.flight && w.flight == v.flight - {effect.param}
  }

  /** What the server goes through while these things happen. */
  ghost predicate History(views: seq<View>, events: seq<Event>, effects: seq<Effect>) {
    && |views| == |events| + 1 && |effects| == |events|
    && forall k :: 0 <= k < |events| ==> Answers(views[k], events[k], effects[k], views[k + 1])
  }

  lemma StaysThrough(v: View, event: Event, effect: Effect, w: View, k: nat)
    requires Answers(v, event, effect, w) && k in v.table.sessions && event != Leaves(k)
    ensures k in w.table.sessions && w.table.sessions[k] == v.table.sessions[k]
  {}

  lemma HistoryFront(views: seq<View>, events: seq<Event>, effects: seq<Effect>)
    requires History(views, events, effects) && events != []
    ensures var n := |events| - 1; History(views[..n + 1], events[..n], effects[..n])
  {
    var n := |events| - 1;
    forall k | 0 <= k < n
      ensures Answers(views[..n + 1][k], events[..n][k], effects[..n][k], views[..n + 1][k + 1])
    {
      assert Answers(views[k], events[k], effects[k], views[k + 1]);
    }
  }

  /** A session that none of the events closes is still there, with its context. */
  lemma {:induction false} NotLeft(views: seq<View>, events: seq<Event>, effects: seq<Effect>)
    requires History(views, events, effects)
    ensures forall k :: k in views[0].table.sessions && Leaves(k) !in events ==>
                          && k in views[|events|].table.sessions
                          && views[|events|].table.sessions[k] == views[0].table.sessions[k]
  {
    if events == [] {
    } else {
      var n := |events| - 1;
      HistoryFront(views, events, effects);
      NotLeft(views[..n + 1], events[..n], effects[..n]);
      assert Answers(views[n], events[n], effects[n], views[n + 1]);
      forall k | k in views[0].table.sessions && Leaves(k) !in events
        ensures k in views[n + 1].table.sessions && views[n + 1].table.sessions[k] == views[0].table.sessions[k]
      {
        assert Leaves(k) !in events[..n] && events[n] != Leaves(k);
        StaysThrough(views[n], events[n], effects[n], views[n + 1], k);
      }
    }
  }

  lemma HistorySnoc(views: seq<View>, events: seq<Event>, effects: seq<Effect>, i: nat, effect: Effect, w: View)
    requires i < |events| && History(views, events[..i], effects) && Answers(views[i], events[i], effect, w)
    ensures History(views + [w], events[..i + 1], effects + [effect])
  {
    forall k | 0 <= k < i + 1
      ensures Answers((views + [w])[k], events[..i + 1][k], (effects + [effect])[k], (views + [w])[k + 1])
    {
      if k < i {
        assert Answers(views[k], events[..i][k], effects[k], views[k + 1]);
      }
    }
  }

  /** The steps of the session table among the effects. */
  function TableSteps(effects: seq<Effect>): seq<SessionTable.Step<SessionCtx>> {
    if effects == [] then []
    else
      var n := |effects| - 1;
      TableSteps(effects[..n]) + if effects[n].Moves? then [effects[n].step] else []
  }

  lemma TableStepsSnoc(start: Table<SessionCtx>, effects: seq<Effect>, effect: Effect, u: Table<SessionCtx>)
    requires CanRun(start, TableSteps(effects))
    requires || MovesTable(After(start, TableSteps(effects)), effect, u)
             || (!effect.Moves? && u == After(start, TableSteps(effects)))
    ensures CanRun(start, TableSteps(effects + [effect])) && After(start, TableSteps(effects + [effect])) == u
  {
    assert (effects + [effect])[..|effects|] == effects;
    if effect.Moves? {
      RunSnoc(start, TableSteps(effects), effect.step);
    } else {
      assert TableSteps(effects) + [] == TableSteps(effects);
    }
  }

  class TCPServer {
    var sessions: map<nat, Session>
    var availCtxs: seq<SessionCtx>
    var lastId: nat
    var availParams: seq<WriteParam>
    ghost var table: Table<SessionCtx>

    /** libuv's side: the contexts whose handles it is closing, and what it has been given to write and not
        completed. */
    var closing: set<SessionCtx>
    var flight: map<WriteParam, Write>

    /** Every _send with data, in order. */
    ghost var attempts: seq<Write>

    /** The write params and their buffers. */
    ghost var repr: set<object>

    ghost function Contexts(): set<SessionCtx>
      reads `table
    {
      (set c | c in table.avail) + table.closing + table.sessions.Values
    }

    /** The session with id k and its context know each other. */
    ghost predicate PointsBack(k: nat)
      requires k in sessions
      reads `sessions, sessions[k].ctx
    {
      sessions[k].ctx.sid == k && sessions[k].ctx.parentSession == sessions[k]
    }

    ghost predicate SessionsAgree(m: map<nat, SessionCtx>)
      reads `sessions, m.Values
    {
      && sessions.Keys == m.Keys
      && forall k :: k in sessions ==> sessions[k].ctx == m[k] && PointsBack(k)
    }

    ghost predicate Valid()
      reads `table, `availCtxs, `lastId, `closing, `sessions, Contexts()
    {
      && Keyed(table) && Owned(table)
      && availCtxs == table.avail && lastId == table.lastId && closing == table.closing && SessionsAgree(table.sessions)
    }

    ghost function AllParams(): set<WriteParam>
      reads `availParams, `flight
    {
      (set p | p in availParams) + flight.Keys
    }

    static ghost predicate Separate(params: set<WriteParam>)
      reads params
    {
      && (forall p :: p in params ==> p.bufTrueLen == p.base.Length)
      && (forall p, q :: p in params && q in params && p != q ==> p.base != q.base)
    }

    /** Every write param is in the pool or with libuv, has a buffer of its own, and in flight that buffer still holds
        what was submitted. */
    ghost predicate ParamsValid()
      reads `availParams, `flight, `repr, repr
    {
      && (forall o :: o in repr ==> o is WriteParam || o is array<Byte>)
      && (forall p :: p in AllParams() ==> p in repr && p.base in repr)
      && IsPool(availParams)
      && (forall p :: p in availParams ==> p !in flight)
      && Separate(AllParams())
      && (forall p :: p in flight ==> p.Holds(flight[p]))
    }

    /** Sessions and contexts match one to one, each context is in one place, and the pool is bounded. */
    lemma ValidMeans()
      requires Valid()
      ensures forall k :: k in sessions ==>
                            && 0 < k <= lastId && sessions[k].ctx.sid == k
                            && sessions[k].ctx.parentSession == sessions[k]
                            && sessions[k].ctx !in availCtxs && sessions[k].ctx !in closing
      ensures forall j, k :: j in sessions && k in sessions && j != k ==> sessions[j].ctx != sessions[k].ctx
      ensures |availCtxs| <= 21 && forall i, j :: 0 <= i < j < |availCtxs| ==> availCtxs[i] != availCtxs[j]
      ensures forall c :: c in availCtxs ==> c !in closing
      ensures sessions.Keys == table.sessions.Keys && forall k :: k in sessions ==> sessions[k].ctx == table.sessions[k]
      ensures availCtxs == table.avail && closing == table.closing && lastId == table.lastId
    {
      assert forall k :: k in sessions ==> PointsBack(k);
    }

    /** Each param is in one place with a buffer of its own, and in flight the buffer holds what was submitted. */
    lemma ParamsMean()
      requires ParamsValid()
      ensures |availParams| <= 21 && forall i, j :: 0 <= i < j < |availParams| ==> availParams[i] != availParams[j]
      ensures forall p :: p in availParams ==> p !in flight
      ensures forall p :: p in flight ==>
                            && p.target == flight[p].target && 0 <= p.len <= p.base.Length
                            && p.base[..p.len] == flight[p].data
      ensures forall p, q :: p in flight && (q in flight || q in availParams) && p != q ==> p.base != q.base
      ensures forall p :: p in availParams ==> p.bufTrueLen == p.base.Length
    {
      assert forall p :: p in availParams || p in flight ==> p in AllParams();
    }

    constructor ()
      ensures Valid() && table == Init<SessionCtx>()
      ensures ParamsValid() && flight == map[] && attempts == [] && repr == {}
    {
      sessions := map[];
      availCtxs := [];
      lastId := 0;
      table := Init<SessionCtx>();
      closing := {};
      availParams := [];
      flight := map[];
      attempts := [];
      repr := {};
    }

    method GenerateSessionID() returns (sid: nat)
      modifies `lastId
      ensures lastId == old(lastId) + 1 && sid == lastId
    {
      lastId := lastId + 1;
      sid := lastId;
    }

    method RecycleOneCtx(ctx: SessionCtx)
      modifies `availCtxs
      ensures availCtxs == AfterRecycle(old(availCtxs), ctx)
      ensures |old(availCtxs)| <= 20 ==> availCtxs == old(availCtxs) + [ctx]
      ensures |old(availCtxs)| > 20 ==> availCtxs == old(availCtxs)
    {
      if |availCtxs| > MAXLISTSIZE {
        // released
      } else {
        availCtxs := availCtxs + [ctx];
      }
    }

    method FetchOneCtx() returns (ctx: SessionCtx)
      modifies `availCtxs, (set c | c in availCtxs)`parentSession
      ensures ctx == Fetched(old(availCtxs), ctx) && availCtxs == AfterFetch(old(availCtxs))
      ensures old(availCtxs) == [] ==> fresh(ctx) && availCtxs == []
      ensures old(availCtxs) != [] ==> ctx == old(availCtxs)[0] && availCtxs == old(availCtxs)[1..]
      ensures ctx.parentSession == null
      ensures forall c :: c in old(availCtxs) && c != ctx ==> c.parentSession == old(c.parentSession)
    {
      if availCtxs == [] {
        ctx := new SessionCtx();
      } else {
        ctx := availCtxs[0];
        availCtxs := availCtxs[1..];
        ctx.parentSession := null;
      }
    }

    /** A new session in the table. */
    method OpenSession(sid: nat, ctx: SessionCtx, ghost live: map<nat, SessionCtx>)
      requires SessionsAgree(live) && sid !in live && ctx !in live.Values && ctx.sid == sid
      modifies `sessions, ctx
      ensures SessionsAgree(live[sid := ctx])
      ensures sid in sessions && fresh(sessions[sid]) && sessions == old(sessions)[sid := sessions[sid]]
    {
      var session := new Session(ctx);
      assert forall k :: k in sessions ==> PointsBack(k);
      sessions := sessions[sid := session];
    }

    /** The rest of an accept, for a context that belongs to nobody else. */
    method SetUp(ctx: SessionCtx, accept: int, readStart: int, ghost live: map<nat, SessionCtx>,
                 ghost goal: map<nat, SessionCtx>)
      requires SessionsAgree(live) && ctx !in live.Values && lastId + 1 !in live
      requires goal == if accept == 0 && readStart == 0 then live[lastId + 1 := ctx] else live
      modifies `lastId, `availCtxs, `closing, `sessions, ctx
      ensures closing == if accept == 0 && readStart != 0 then old(closing) + {ctx} else old(closing)
      ensures lastId == old(lastId) + 1
      ensures availCtxs == if accept != 0 then AfterRecycle(old(availCtxs), ctx) else old(availCtxs)
      ensures SessionsAgree(goal)
      ensures if accept == 0 && readStart == 0
              then && lastId in sessions && fresh(sessions[lastId])
                   && sessions == old(sessions)[lastId := sessions[lastId]]
              else sessions == old(sessions)
    {
      var sid := GenerateSessionID();
      ctx.sid := sid;
      assert SessionsAgree(live);
      if accept != 0 {
        RecycleOneCtx(ctx);
      } else if readStart != 0 {
        closing := closing + {ctx};
      } else {
        OpenSession(sid, ctx, live);
      }
    }

    /** All of an accept behind the fetch of its context. */
    method Proceed(ctx: SessionCtx, tcpInit: int, accept: int, readStart: int, ghost live: map<nat, SessionCtx>,
                   ghost goal: map<nat, SessionCtx>)
      requires SessionsAgree(live) && ctx !in live.Values && lastId + 1 !in live
      requires goal == if tcpInit == accept == readStart == 0 then live[lastId + 1 := ctx] else live
      modifies `lastId, `availCtxs, `closing, `sessions, ctx
      ensures closing == old(closing) + if tcpInit == accept == 0 && readStart != 0 then {ctx} else {}
      ensures lastId == if tcpInit != 0 then old(lastId) else old(lastId) + 1
      ensures availCtxs == if tcpInit != 0 || accept != 0 then AfterRecycle(old(availCtxs), ctx) else old(availCtxs)
      ensures SessionsAgree(goal)
      ensures if tcpInit == accept == readStart == 0
              then && lastId in sessions && fresh(sessions[lastId])
                   && sessions == old(sessions)[lastId := sessions[lastId]]
              else sessions == old(sessions)
    {
      if tcpInit != 0 {
        RecycleOneCtx(ctx);
      } else {
        SetUp(ctx, accept, readStart, live, goal);
      }
    }

    /** The table's side of an accept, with the context just fetched. */
    ghost method AcceptTable(ctx: SessionCtx, outcome: Outcome)
      requires Keyed(table) && Owned(table) && lastId == table.lastId && SessionsAgree(table.sessions)
      requires Enabled(table, Accept(ctx, outcome)) && ctx == Fetched(table.avail, ctx)
      modifies `table
      ensures table == Next(old(table), Accept(ctx, outcome)) && Keyed(table) && Owned(table)
      ensures ctx !in old(table).sessions.Values && lastId + 1 !in old(table).sessions
      ensures table.sessions == if outcome.Opened? then old(table).sessions[lastId + 1 := ctx] else old(table).sessions
      ensures SessionsAgree(old(table).sessions)
      ensures table.lastId == if outcome.InitFailed? then lastId else lastId + 1
      ensures table.closing == old(table).closing + if outcome.ReadFailed? then {ctx} else {}
      ensures var rest := AfterFetch(old(table).avail);
              table.avail == if outcome.InitFailed? || outcome.AcceptFailed? then AfterRecycle(rest, ctx) else rest
      ensures forall c :: c in Contexts() ==> c in old(Contexts()) || c == ctx
    {
      AcceptKeeps(table, ctx, outcome);
      table := Next(table, Accept(ctx, outcome));
    }

    /** A connection that has come in without an error: its context, from the pool if there is one, goes back to the
        pool, to libuv for closing, or into a new session. */
    method AcceptOne(tcpInit: int, accept: int, readStart: int) returns (ghost used: SessionCtx)
      requires Valid()
      modifies `sessions, `availCtxs, `lastId, `closing, `table, Contexts()
      ensures Valid()
      ensures forall c :: c in Contexts() ==> c in old(Contexts()) || fresh(c)
      ensures var step := Accept(used, Reached(tcpInit, accept, readStart));
              Enabled(old(table), step) && table == Next(old(table), step)
      ensures if old(availCtxs) == [] then fresh(used) else used == old(availCtxs)[0]
      ensures var rest := if old(availCtxs) == [] then [] else old(availCtxs)[1..];
              availCtxs == if tcpInit != 0 || accept != 0 then rest + [used] else rest
      ensures lastId == if tcpInit != 0 then old(lastId) else old(lastId) + 1
      ensures closing == old(closing) + if tcpInit == 0 && accept == 0 && readStart != 0 then {used} else {}
      ensures if tcpInit == 0 && accept == 0 && readStart == 0
              then lastId in sessions && sessions == old(sessions)[lastId := sessions[lastId]]
              else sessions == old(sessions)
    {
      var ctx := FetchOneCtx();
      used := ctx;
      AcceptTable(ctx, Reached(tcpInit, accept, readStart));
      Proceed(ctx, tcpInit, accept, readStart, old(table).sessions, table.sessions);
    }

    /** One incoming connection; the four codes are the results of libuv's calls, zero for success. `used` is the
        context that was used, if the connection got that far. */
    method OnConnection(status: int, tcpInit: int, accept: int, readStart: int) returns (ghost used: Option<SessionCtx>)
      requires Valid()
      modifies `sessions, `availCtxs, `lastId, `closing, `table, Contexts()
      ensures Valid()
      ensures forall c :: c in Contexts() ==> c in old(Contexts()) || fresh(c)
      ensures status != 0 ==> used == None && table == old(table)
      ensures status == 0 ==> used.Some? && (var step := Accept(used.value, Reached(tcpInit, accept, readStart));
                                             Enabled(old(table), step) && table == Next(old(table), step))
      ensures status == 0 && old(availCtxs) == [] ==> fresh(used.value)
      ensures status == 0 && old(availCtxs) != [] ==> used.value == old(availCtxs)[0]
      ensures status != 0 ==>
                && availCtxs == old(availCtxs) && lastId == old(lastId)
                && closing == old(closing) && sessions == old(sessions)
      ensures status == 0 ==>
                var rest := if old(availCtxs) == [] then [] else old(availCtxs)[1..];
                availCtxs == if tcpInit != 0 || accept != 0 then rest + [used.value] else rest
      ensures status == 0 ==> lastId == if tcpInit != 0 then old(lastId) else old(lastId) + 1
      ensures status == 0 ==>
                closing == old(closing) + if tcpInit == 0 && accept == 0 && readStart != 0 then {used.value} else {}
      ensures status == tcpInit == accept == readStart == 0 ==>
                && sessions.Keys == old(sessions.Keys) + {lastId} && lastId !in old(sessions)
                && (forall k :: k in old(sessions) ==> sessions[k] == old(sessions)[k])
                && sessions[lastId].ctx == used.value && used.value.sid == lastId
                && used.value.parentSession == sessions[lastId]
      ensures !(status == tcpInit == accept == readStart == 0) ==> sessions == old(sessions)
    {
      if status != 0 {
        return None;
      }
      assert lastId + 1 !in sessions;
      ghost var ctx := AcceptOne(tcpInit, accept, readStart);
      used := Some(ctx);
      if tcpInit == accept == readStart == 0 {
        assert PointsBack(lastId) && table.sessions[lastId] == ctx;
      }
    }

    /** The close callback of a session. */
    method SessionClosed(sid: nat)
      requires Valid()
      modifies `sessions, `availCtxs, `table
      ensures Valid() && table == Next(old(table), SessionTable.SessionClosed(sid))
      ensures sessions == old(sessions) - {sid}
      ensures sid !in old(sessions) ==> availCtxs == old(availCtxs)
      ensures sid in old(sessions) ==>
                availCtxs == old(availCtxs) + if |old(availCtxs)| <= 20 then [old(sessions)[sid].ctx] else []
    {
      KeyedKept(table, SessionTable.SessionClosed(sid));
      OwnedKept(table, SessionTable.SessionClosed(sid));
      table := Next(table, SessionTable.SessionClosed(sid));
      if sid in sessions {
        RecycleOneCtx(sessions[sid].ctx);
        sessions := sessions - {sid};
      }
    }

    /** The close callback of a handle whose reading could not be started. */
    method RecycleSessionCtx(ctx: SessionCtx)
      requires Valid() && ctx in closing
      modifies `availCtxs, `closing, `table
      ensures Valid() && table == Next(old(table), HandleClosed(ctx))
      ensures closing == old(closing) - {ctx}
      ensures availCtxs == old(availCtxs) + if |old(availCtxs)| <= 20 then [ctx] else []
    {
      KeyedKept(table, HandleClosed(ctx));
      OwnedKept(table, HandleClosed(ctx));
      table := Next(table, HandleClosed(ctx));
      closing := closing - {ctx};
      RecycleOneCtx(ctx);
    }

    // ---- Sending ----

    method FetchOneParam() returns (param: WriteParam)
      modifies `availParams
      ensures param == Fetched(old(availParams), param) && availParams == AfterFetch(old(availParams))
      ensures old(availParams) == [] ==>
                fresh(param) && fresh(param.base) && param.base.Length == param.bufTrueLen == 10240 && availParams == []
      ensures old(availParams) != [] ==> param == old(availParams)[0] && availParams == old(availParams)[1..]
    {
      if availParams == [] {
        param := new WriteParam();
      } else {
        param := availParams[0];
        availParams := availParams[1..];
      }
    }

    method RecycleOneParam(param: WriteParam)
      modifies `availParams
      ensures availParams == AfterRecycle(old(availParams), param)
      ensures |old(availParams)| <= 20 ==> availParams == old(availParams) + [param]
      ensures |old(availParams)| > 20 ==> availParams == old(availParams)
    {
      if |availParams| > MAXLISTSIZE {
        // released
      } else {
        availParams := availParams + [param];
      }
    }

    static lemma SeparateSubset(some: set<WriteParam>, all: set<WriteParam>)
      requires Separate(all) && some <= all
      ensures Separate(some)
    {}

    /** Submit the param just filled; a failed uv_write sends it back to the pool. */
    method UvWrite(param: WriteParam, ctx: SessionCtx, ghost data: seq<Byte>, ok: bool)
      requires ParamsValid() && param in repr && param.base in repr
      requires param !in AllParams() && Separate(AllParams() + {param}) && param.Holds(Write(ctx, data))
      modifies `availParams, `flight
      ensures ParamsValid()
      ensures flight == if ok then old(flight)[param := Write(ctx, data)] else old(flight)
      ensures availParams == old(availParams) + if !ok && |old(availParams)| <= 20 then [param] else []
    {
      ghost var params := AllParams();
      if ok {
        flight := flight[param := Write(ctx, param.base[..param.len])];
      } else {
        RecycleKeeps(availParams, param);
        RecycleOneParam(param);
      }
      SeparateSubset(AllParams(), params + {param});
    }

    /** Grow the buffer if it is too small, and copy the data in. */
    static method FillParam(param: WriteParam, data: seq<Byte>, ctx: SessionCtx)
      requires param.bufTrueLen == param.base.Length
      modifies param, param.base
      ensures param.base == old(param.base) || fresh(param.base)
      ensures param.bufTrueLen == param.base.Length && param.Holds(Write(ctx, data))
    {
      if param.bufTrueLen < |data| {
        param.base := new Byte[|data|];
        param.bufTrueLen := |data|;
      }
      forall k | 0 <= k < |data| {
        param.base[k] := data[k];
      }
      param.len := |data|;
      param.target := ctx;
    }

    /** Fetch a param of which nobody else has hold. */
    method ReserveParam() returns (param: WriteParam)
      requires ParamsValid()
      modifies `availParams, `repr
      ensures ParamsValid() && repr == old(repr) + {param, param.base} && fresh(repr - old(repr))
      ensures param !in AllParams() && Separate(AllParams() + {param})
      ensures old(availParams) == [] ==> fresh(param) && availParams == []
      ensures old(availParams) != [] ==> param == old(availParams)[0] && availParams == old(availParams)[1..]
    {
      ghost var all := AllParams();
      param := FetchOneParam();
      FetchKeeps(old(availParams), param);
      repr := repr + {param, param.base};
      SeparateSubset(AllParams(), all);
      if old(availParams) == [] {
        assert AllParams() == flight.Keys;
      } else {
        SeparateSubset(AllParams() + {param}, all);
      }
    }

    /** Filling a param that is neither in the pool nor with libuv disturbs no other. */
    method FillOther(param: WriteParam, data: seq<Byte>, ctx: SessionCtx)
      requires ParamsValid() && param in repr && param.base in repr
      requires param !in AllParams() && Separate(AllParams() + {param})
      modifies `repr, param, param.base
      ensures ParamsValid() && repr == old(repr) + {param.base} && fresh(repr - old(repr))
      ensures Separate(AllParams() + {param}) && param.Holds(Write(ctx, data))
    {
      FillParam(param, data, ctx);
      repr := repr + {param.base};
      forall p | p in AllParams()
        ensures p.base == old(p.base) && p.base != param.base && p.bufTrueLen == p.base.Length
        ensures p in flight ==> p.Holds(flight[p])
      {
        assert p != param && p.base != old(param.base);
      }
    }

    method TakeParam(data: seq<Byte>, ctx: SessionCtx) returns (param: WriteParam)
      requires ParamsValid()
      modifies `availParams, `repr, repr
      ensures ParamsValid() && old(repr) <= repr && fresh(repr - old(repr))
      ensures param in repr && param.base in repr && param !in AllParams() && Separate(AllParams() + {param})
      ensures param.Holds(Write(ctx, data))
      ensures old(availParams) == [] ==> fresh(param) && availParams == []
      ensures old(availParams) != [] ==> param == old(availParams)[0] && availParams == old(availParams)[1..]
    {
      param := ReserveParam();
      FillOther(param, data, ctx);
    }

    /** `ok` is whether uv_write takes the param; `used` is the param if it does. */
    method Send(data: seq<Byte>, ctx: SessionCtx, ok: bool) returns (sent: bool, ghost used: Option<WriteParam>)
      requires ParamsValid()
      modifies `availParams, `flight, `attempts, `repr, repr
      ensures ParamsValid() && old(repr) <= repr && fresh(repr - old(repr))
      ensures data == [] ==> sent && used == None && attempts == old(attempts)
      ensures data != [] ==> sent == ok == used.Some? && attempts == old(attempts) + [Write(ctx, data)]
      ensures used.Some? ==> used.value !in old(flight)
      ensures flight == if used.Some? then old(flight)[used.value := Write(ctx, data)] else old(flight)
      ensures used.Some? ==>
                var p := used.value;
                p.target == ctx && 0 <= p.len <= p.base.Length && p.base[..p.len] == data
                && if old(availParams) == [] then fresh(p) else p == old(availParams)[0]
      ensures data == [] ==> availParams == old(availParams)
      ensures data != [] && ok ==> availParams == if old(availParams) == [] then [] else old(availParams)[1..]
      ensures data != [] && !ok ==>
                if old(availParams) == [] then |availParams| == 1 && fresh(availParams[0])
                else availParams == old(availParams)[1..] + [old(availParams)[0]]
    {
      used := None;
      if data == [] {
        return true, None;
      }
      attempts := attempts + [Write(ctx, data)];
      var param := TakeParam(data, ctx);
      if ok {
        used := Some(param);
      }
      sent := ok;
      UvWrite(param, ctx, data, ok);
    }

    /** The completion callback, whatever the status. */
    method OnSend(param: WriteParam)
      requires ParamsValid() && param in flight
      modifies `availParams, `flight
      ensures ParamsValid() && flight == old(flight) - {param}
      ensures availParams == old(availParams) + if |old(availParams)| <= 20 then [param] else []
    {
      flight := flight - {param};
      RecycleKeeps(availParams, param);
      RecycleOneParam(param);
    }

    // ---- Broadcast ----

    /** std::find. */
    static method Find(ids: seq<int>, id: int) returns (at: int)
      ensures at == -1 <==> id !in ids
      ensures at != -1 ==> 0 <= at < |ids| && ids[at] == id
    {
      at := 0;
      while at < |ids|
        invariant 0 <= at <= |ids| && id !in ids[..at]
      {
        if ids[at] == id {
          return;
        }
        at := at + 1;
      }
      at := -1;
    }

    /** Look an id up, and erase one occurrence. */
    static method TakeOut(ids: seq<int>, id: int) returns (found: bool, rest: seq<int>)
      ensures found <==> id in ids
      ensures forall k :: k != id ==> (k in rest <==> k in ids)
      ensures multiset(rest) == multiset(ids) - multiset{id}
    {
      var at := Find(ids, id);
      if at == -1 {
        return false, ids;
      }
      Erase(ids, at);
      return true, ids[..at] + ids[at + 1..];
    }

    /** The send of one turn. */
    method SendTo(data: seq<Byte>, ids: seq<nat>, id: nat, oks: seq<bool>, ghost before: seq<Write>,
                  ghost f: map<WriteParam, Write>, ghost used: seq<Option<WriteParam>>)
        returns (ghost nowUsed: seq<Option<WriteParam>>)
      requires ParamsValid() && data != [] && id in sessions && forall k :: k in ids ==> k in sessions
      requires attempts == before + Attempted(CtxOf(sessions), ids, data)
      requires Submitted(f, Attempted(CtxOf(sessions), ids, data), used, oks, flight)
      modifies `availParams, `flight, `attempts, `repr, repr
      ensures ParamsValid() && fresh(repr - old(repr))
      ensures attempts == before + Attempted(CtxOf(sessions), ids + [id], data)
      ensures Submitted(f, Attempted(CtxOf(sessions), ids + [id], data), nowUsed, oks, flight)
    {
      ghost var contexts := CtxOf(sessions);
      AttemptedSnoc(contexts, ids, id, data);
      var _, param := Send(data, sessions[id].ctx, Succeeds(oks, |ids|));
      SubmittedSnoc(f, Attempted(contexts, ids, data), used, oks, old(flight), Write(contexts[id], data), param);
      nowUsed := used + [param];
    }

    /** One turn of the loop, for the session with the least id of the rest. `before` are the attempts and `f` the
        writes in flight before the broadcast, `used` the params of the turns so far. */
    method Offer(data: seq<Byte>, ids: seq<nat>, ghost rest: set<nat>, exclude: seq<int>, ghost excludeIds: seq<int>,
                 id: nat, oks: seq<bool>, ghost before: seq<Write>, ghost f: map<WriteParam, Write>,
                 ghost used: seq<Option<WriteParam>>)
        returns (next: seq<nat>, left: seq<int>, ghost nowUsed: seq<Option<WriteParam>>)
      requires ParamsValid() && data != []
      requires Chosen(ids, sessions.Keys, rest, exclude, excludeIds) && id in rest && forall k :: k in rest ==> id <= k
      requires attempts == before + Attempted(CtxOf(sessions), ids, data)
      requires Submitted(f, Attempted(CtxOf(sessions), ids, data), used, oks, flight)
      modifies `availParams, `flight, `attempts, `repr, repr
      ensures ParamsValid() && fresh(repr - old(repr))
      ensures Chosen(next, sessions.Keys, rest - {id}, left, excludeIds)
      ensures attempts == before + Attempted(CtxOf(sessions), next, data)
      ensures Submitted(f, Attempted(CtxOf(sessions), next, data), nowUsed, oks, flight)
    {
      var excluded;
      excluded, left := TakeOut(exclude, id);
      Past(ids, sessions.Keys, rest, exclude, left, excludeIds, id);
      next, nowUsed := ids, used;
      if !excluded {
        next := ids + [id];
        nowUsed := SendTo(data, ids, id, oks, before, f, used);
      }
    }

    /** The loop of the broadcast, over the sessions in ascending order of their ids. */
    method SendToRest(data: seq<Byte>, excludeIds: seq<int>, oks: seq<bool>)
        returns (ids: seq<nat>, ghost used: seq<Option<WriteParam>>)
      requires ParamsValid()
      modifies `availParams, `flight, `attempts, `repr, repr
      ensures ParamsValid() && fresh(repr - old(repr))
      ensures Increasing(ids)
      ensures forall k :: k in ids <==> data != [] && k in sessions && k !in excludeIds
      ensures attempts == old(attempts) + Attempted(CtxOf(sessions), ids, data)
      ensures Submitted(old(flight), Attempted(CtxOf(sessions), ids, data), used, oks, flight)
    {
      ids, used := [], [];
      if data == [] {
        return;
      }
      var rest, exclude := sessions.Keys, excludeIds;
      while rest != {}
        invariant Chosen(ids, sessions.Keys, rest, exclude, excludeIds)
        invariant ParamsValid() && attempts == old(attempts) + Attempted(CtxOf(sessions), ids, data)
        invariant Submitted(old(flight), Attempted(CtxOf(sessions), ids, data), used, oks, flight)
        invariant fresh(repr - old(repr))
        decreases rest
      {
        ghost var _ := Least(rest);
        var id :| id in rest && forall k :: k in rest ==> id <= k;
        ids, exclude, used := Offer(data, ids, rest, exclude, excludeIds, id, oks, old(attempts), old(flight), used);
        rest := rest - {id};
      }
    }

    /** Sends to every session whose id is not in the list, in the map's ascending order; the list loses an entry each
        time one of its ids is met. `oks` are the outcomes of the uv_writes. */
    method Broadcast(data: seq<Byte>, excludeIds: seq<int>, oks: seq<bool>)
        returns (ids: seq<nat>, ghost used: seq<Option<WriteParam>>)
      requires ParamsValid()
      modifies `availParams, `flight, `attempts, `repr, repr
      ensures ParamsValid() && fresh(repr - old(repr))
      ensures forall i, j :: 0 <= i < j < |ids| ==> ids[i] < ids[j]
      ensures forall k :: k in ids <==> data != [] && k in sessions && k !in excludeIds
      ensures attempts == old(attempts) + Attempted(CtxOf(sessions), ids, data)
      ensures Submitted(old(flight), Attempted(CtxOf(sessions), ids, data), used, oks, flight)
      ensures |used| == |ids|
      ensures forall i :: 0 <= i < |ids| ==> attempts[|old(attempts)| + i] == Write(sessions[ids[i]].ctx, data)
      ensures forall i :: 0 <= i < |ids| ==> (used[i].Some? <==> (i < |oks| ==> oks[i]))
      ensures forall i :: 0 <= i < |ids| && used[i].Some? ==>
                            var p := used[i].value;
                            && p !in old(flight) && p in flight && p.target == sessions[ids[i]].ctx
                            && 0 <= p.len <= p.base.Length && p.base[..p.len] == data
      ensures forall i, j :: 0 <= i < j < |ids| && used[i].Some? ==> used[i] != used[j]
      ensures flight.Keys == old(flight.Keys) + set i | 0 <= i < |used| && used[i].Some? :: used[i].value
      ensures forall p :: p in old(flight) ==> flight[p] == old(flight)[p]
    {
      ids, used := SendToRest(data, excludeIds, oks);
      SubmittedMeans(old(flight), Attempted(CtxOf(sessions), ids, data), used, oks, flight);
      forall i | 0 <= i < |ids| && used[i].Some?
        ensures var p := used[i].value;
                && p !in old(flight) && p in flight && p.target == sessions[ids[i]].ctx
                && 0 <= p.len <= p.base.Length && p.base[..p.len] == data
      {
        assert used[i].value.Holds(flight[used[i].value]);
      }
    }

    // ---- Whatever happens ----

    ghost function Now(): View
      reads `table, `flight, `attempts
    {
      View(table, flight, attempts)
    }

    method ConnectOnly(status: int, tcpInit: int, accept: int, readStart: int) returns (ghost effect: Effect)
      requires Valid()
      modifies `sessions, `availCtxs, `lastId, `closing, `table, Contexts()
      ensures Valid()
      ensures forall c :: c in Contexts() ==> c in old(Contexts()) || fresh(c)
      ensures Answers(old(Now()), Connects(status, tcpInit, accept, readStart), effect, Now())
    {
      ghost var used := OnConnection(status, tcpInit, accept, readStart);
      effect := Nothing;
      if used.Some? {
        effect := Moves(Accept(used.value, Reached(tcpInit, accept, readStart)));
      }
    }

    method HappenToSessions(event: Event) returns (ghost effect: Effect)
      requires Valid()
      modifies `sessions, `availCtxs, `lastId, `closing, `table, Contexts()
      ensures Valid()
      ensures forall c :: c in Contexts() ==> c in old(Contexts()) || fresh(c)
      ensures event.Connects? || event.Leaves? || event.HandleCloses? ==> Answers(old(Now()), event, effect, Now())
    {
      effect := Nothing;
      match event
      case Connects(status, tcpInit, accept, readStart) =>
        effect := ConnectOnly(status, tcpInit, accept, readStart);
      case Leaves(sid) =>
        SessionClosed(sid);
        effect := Moves(SessionTable.SessionClosed(sid));
      case HandleCloses =>
        if closing != {} {
          var ctx :| ctx in closing;
          RecycleSessionCtx(ctx);
          effect := Moves(HandleClosed(ctx));
        }
      case _ =>
    }

    /** The writes stay as they are. */
    method SessionsOnly(event: Event) returns (ghost effect: Effect)
      requires Valid() && ParamsValid() && (event.Connects? || event.Leaves? || event.HandleCloses?)
      modifies `sessions, `availCtxs, `lastId, `closing, `table, Contexts()
      ensures Valid() && ParamsValid()
      ensures forall c :: c in Contexts() ==> c in old(Contexts()) || fresh(c)
      ensures Answers(old(Now()), event, effect, Now())
    {
      assert forall o :: o in repr ==> o !in Contexts();
      effect := HappenToSessions(event);
      assert forall o :: o in repr ==> unchanged(o);
    }

    /** The session table stays as it is. */
    method BroadcastOnly(data: seq<Byte>, excludeIds: seq<int>, oks: seq<bool>) returns (ghost effect: Effect)
      requires Valid() && ParamsValid()
      modifies `availParams, `flight, `attempts, `repr, repr
      ensures Valid() && ParamsValid() && fresh(repr - old(repr))
      ensures Answers(old(Now()), Broadcasts(data, excludeIds, oks), effect, Now())
    {
      assert forall c :: c in Contexts() ==> c !in repr;
      assert CtxOf(sessions) == table.sessions;
      var ids;
      ghost var used;
      ids, used := Broadcast(data, excludeIds, oks);
      assert forall c :: c in Contexts() ==> unchanged(c);
      effect := Sends(ids, used);
    }

    method CompleteOnly() returns (ghost effect: Effect)
      requires Valid() && ParamsValid()
      modifies `availParams, `flight
      ensures Valid() && ParamsValid() && Answers(old(Now()), Completes, effect, Now())
    {
      effect := Nothing;
      if flight != map[] {
        var param :| param in flight;
        OnSend(param);
        effect := Ends(param);
      }
    }

    /** One event, and what it did. */
    method Happen(event: Event) returns (ghost effect: Effect)
      requires Valid() && ParamsValid()
      modifies this, Contexts(), repr
      ensures Valid() && ParamsValid()
      ensures forall c :: c in Contexts() ==> c in old(Contexts()) || fresh(c)
      ensures fresh(repr - old(repr))
      ensures Answers(old(Now()), event, effect, Now())
    {
      match event
      case Broadcasts(data, excludeIds, oks) =>
        effect := BroadcastOnly(data, excludeIds, oks);
      case Completes =>
        effect := CompleteOnly();
      case _ =>
        effect := SessionsOnly(event);
    }

    /** Lets libuv and the user do these things to the server one after the other. Sessions, contexts and write params
        stay consistent throughout, everything that happens has its effect and no other, and no session comes back. */
    method Serve(events: seq<Event>) returns (ghost views: seq<View>, ghost effects: seq<Effect>)
      requires Valid() && ParamsValid()
      modifies this, Contexts(), repr
      ensures Valid() && ParamsValid()
      ensures forall c :: c in Contexts() ==> c in old(Contexts()) || fresh(c)
      ensures fresh(repr - old(repr))
      ensures History(views, events, effects) && views[0] == old(Now()) && views[|events|] == Now()
      ensures CanRun(old(table), TableSteps(effects)) && table == After(old(table), TableSteps(effects))
      ensures OnlyNewIds(old(table), table)
      ensures forall k :: k in old(sessions) && Leaves(k) !in events ==>
                            k in sessions && sessions[k].ctx == old(sessions)[k].ctx
    {
      ghost var start := table;
      effects, views := [], [Now()];
      for i := 0 to |events|
        invariant Valid() && ParamsValid()
        invariant forall c :: c in Contexts() ==> c in old(Contexts()) || fresh(c)
        invariant fresh(repr - old(repr))
        invariant CanRun(start, TableSteps(effects)) && table == After(start, TableSteps(effects))
        invariant History(views, events[..i], effects) && views[0] == old(Now()) && views[i] == Now()
      {
        ghost var effect := Happen(events[i]);
        HistorySnoc(views, events, effects, i, effect, Now());
        TableStepsSnoc(start, effects, effect, Now().table);
        views, effects := views + [Now()], effects + [effect];
      }
      assert events[..|events|] == events;
      RunKeepsInv(start, TableSteps(effects));
      NotLeft(views, events, effects);
    }
  }
}
