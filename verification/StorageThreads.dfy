// The storage service under several threads: locking, the read-to-write upgrade, and why every
// interleaving is some sequential run.
module StorageThreads {
  import opened Names
  import opened MemoryStorage
  import opened StorageRuns

  type Thread = nat

  // ---------------------------------------------------------------- one operation in small steps

  // An operation at work inside its lock, with what it has read so far and what it has yet to sweep.
  datatype Job = Job(event: Event, stage: nat, todo: set<(string, string)>, expires: Option<int>)

  // The context reference the operation holds; only two operations work without one.
  predicate NeedsContext(e: Event) {
    !e.DeleteContext? && !e.Cleanup?
  }

  function Open(st: Store, e: Event): Store {
    if NeedsContext(e) then st[e.context := At(st, e.context)] else st
  }

  // The records a sweeping operation visits.
  function Visited(st: Store, e: Event): set<(string, string)> {
    if e.UpdateContext? || e.Reap? then set k | k in At(st, e.context) :: (e.context, k)
    else if e.Cleanup? then set c, k | c in st && k in st[c] :: (c, k)
    else {}
  }

  predicate Sweeping(e: Event) {
    e.UpdateContext? || e.Reap? || e.Cleanup?
  }

  // One small step of the work: the store, the job, and the result once there is one.  A sweep may
  // come to its records in any order.
  function Micro(st: Store, job: Job, p: (string, string)): (Store, Job, Option<Result>)
    requires NeedsContext(job.event) ==> job.event.context in st
    requires Sweeping(job.event) && job.todo != {} ==> p in job.todo && p.0 in st && p.1 in st[p.0]
  {
    var e := job.event;
    match e
    case Read(now, c, k, version) =>
      if job.stage == 0 then
        if k !in st[c] || now >= st[c][k].expiration then (st, job, Some(Got(0, None, None)))
        else (st, job.(stage := 1, expires := Some(st[c][k].expiration)), None)
      else if k !in st[c] then (st, job, Some(Done))
      else if st[c][k].version == version then (st, job, Some(Got(version, job.expires, None)))
      else (st, job, Some(Got(st[c][k].version, job.expires, Some(st[c][k].data))))
    case Create(now, c, k, v, x) =>
      if job.stage == 0 then
        if k in st[c] then
          if now < st[c][k].expiration then (st, job, Some(Created(false)))
          else (st[c := st[c] - {k}], job.(stage := 1), None)
        else (st, job.(stage := 1), None)
      else (st[c := st[c][k := Record(v, x, 1)]], job, Some(Created(true)))
    case Update(now, c, k, data, x, version) =>
      if job.stage == 0 then
        if k !in st[c] || now >= st[c][k].expiration then (st, job, Some(Updated(0)))
        else if version > 0 && version != st[c][k].version then (st, job, Some(Updated(-1)))
        else if data.Some? then (st[c := st[c][k := st[c][k].(data := data.value)]], job.(stage := 1), None)
        else (st, job.(stage := 2), None)
      else if k !in st[c] then (st, job, Some(Done))
      else if job.stage == 1 then
        (st[c := st[c][k := st[c][k].(version := st[c][k].version + 1)]], job.(stage := 2), None)
      else if job.stage == 2 then
        (if x != 0 then st[c := st[c][k := st[c][k].(expiration := x)]] else st, job.(stage := 3), None)
      else (st, job, Some(Updated(st[c][k].version)))
    case Delete(_, c, k) =>
      if k in st[c] then (st[c := st[c] - {k}], job, Some(Deleted(true))) else (st, job, Some(Deleted(false)))
    case DeleteContext(_, c) => (st - {c}, job, Some(Done))
    case _ =>
      if job.todo == {} then (st, job, Some(Done))
      else (st[p.0 := Visit(st[p.0], p.1, e)], job.(todo := job.todo - {p}), None)
  }

  function Visit(ctx: Context, k: string, e: Event): Context
    requires k in ctx
  {
    if e.UpdateContext? then
      if e.time < ctx[k].expiration then ctx[k := ctx[k].(expiration := e.expiration)] else ctx
    else if ctx[k].expiration <= e.time then ctx - {k}
    else ctx
  }

  // ---------------------------------------------------------------- the small steps add up

  function VisitedRecord(r: Record, e: Event): Option<Record> {
    if e.UpdateContext? then Some(if e.time < r.expiration then r.(expiration := e.expiration) else r)
    else if Sweeping(e) && r.expiration <= e.time then None
    else Some(r)
  }

  predicate Targets(e: Event, c: string) {
    e.Cleanup? || (Sweeping(e) && e.context == c)
  }

  // One context after a sweep visited everything but `todo`.
  function SweptContext(ctx: Context, c: string, e: Event, todo: set<(string, string)>): Context {
    map k | k in ctx && ((c, k) in todo || !Targets(e, c) || VisitedRecord(ctx[k], e).Some?) ::
      if (c, k) in todo || !Targets(e, c) then ctx[k] else VisitedRecord(ctx[k], e).value
  }

  function Swept(prev: Store, e: Event, todo: set<(string, string)>): Store {
    map c | c in Open(prev, e) :: SweptContext(Open(prev, e)[c], c, e, todo)
  }

  lemma SweptVisit(ctx: Context, c: string, e: Event, todo: set<(string, string)>, p: (string, string))
    requires Sweeping(e) && p in todo && (c == p.0 ==> p.1 in ctx && Targets(e, c))
    ensures c != p.0 ==> SweptContext(ctx, c, e, todo - {p}) == SweptContext(ctx, c, e, todo)
    ensures c == p.0 ==> p.1 in SweptContext(ctx, c, e, todo)
                         && SweptContext(ctx, c, e, todo - {p}) == Visit(SweptContext(ctx, c, e, todo), p.1, e)
  {
  }

  lemma SweptDone(ctx: Context, c: string, e: Event)
    requires Sweeping(e)
    ensures SweptContext(ctx, c, e, {}) == if !Targets(e, c) then ctx
                                           else if e.UpdateContext? then Extended(ctx, e.time, e.expiration)
                                           else Unexpired(ctx, e.time)
  {
  }

  // How far a job has come, from the store `prev` it started on.
  ghost predicate MidWay(prev: Store, st: Store, job: Job) {
    var e := job.event;
    match e
    case Read(now, c, k, _) =>
      && st == Open(prev, e)
      && (job.stage == 0
          || (job.stage == 1 && Live(prev, c, k, now).Some? && job.expires == Some(At(prev, c)[k].expiration)))
    case Create(now, c, k, _, _) =>
      || (job.stage == 0 && st == Open(prev, e))
      || (job.stage == 1 && Live(prev, c, k, now).None? && st == prev[c := At(prev, c) - {k}])
    case Update(now, c, k, data, x, version) =>
      || (job.stage == 0 && st == Open(prev, e))
      || (&& Live(prev, c, k, now).Some? && (version <= 0 || version == At(prev, c)[k].version)
          && var r := At(prev, c)[k];
             || (job.stage == 1 && data.Some? && st == prev[c := At(prev, c)[k := r.(data := data.value)]])
             || (job.stage == 2 && st == prev[c := At(prev, c)[k := Written(r, data, 0)]])
             || (job.stage == 3 && st == prev[c := At(prev, c)[k := Written(r, data, x)]]))
    case Delete(_, _, _) => st == Open(prev, e)
    case DeleteContext(_, _) => st == prev
    case _ => job.todo <= Visited(prev, e) && st == Swept(prev, e, job.todo)
  }

  lemma MidWayStart(prev: Store, e: Event)
    ensures MidWay(prev, Open(prev, e), Job(e, 0, Visited(prev, e), None))
  {
    if Sweeping(e) {
      forall c | c in Open(prev, e)
        ensures SweptContext(Open(prev, e)[c], c, e, Visited(prev, e)) == Open(prev, e)[c]
      {
        forall k | k in Open(prev, e)[c] ensures Targets(e, c) ==> (c, k) in Visited(prev, e) {
        }
      }
      assert Swept(prev, e, Visited(prev, e)) == Open(prev, e);
    }
  }

  // Each small step keeps to the plan, and the last one arrives where the operation as a whole would.
  lemma MicroRight(prev: Store, st: Store, job: Job, p: (string, string))
    requires MidWay(prev, st, job) && (Sweeping(job.event) && job.todo != {} ==> p in job.todo)
    ensures NeedsContext(job.event) ==> job.event.context in st
    ensures Sweeping(job.event) && job.todo != {} ==> p.0 in st && p.1 in st[p.0]
    ensures var (st', job', r) := Micro(st, job, p);
            && job'.event == job.event
            && (r.None? ==> MidWay(prev, st', job') && (job'.todo < job.todo || (job'.todo == job.todo && job'.stage > job.stage)))
            && (r.Some? ==> st' == After(prev, job.event) && r.value == Answer(prev, job.event))
  {
    var e := job.event;
    match e {
      case Read(now, c, k, _) =>
      case Create(now, c, k, v, x) =>
        assert (At(prev, c) - {k})[k := Record(v, x, 1)] == At(prev, c)[k := Record(v, x, 1)];
        assert k !in At(prev, c) ==> At(prev, c) - {k} == At(prev, c);
      case Update(now, c, k, data, x, version) =>
        UpdateRight(prev, st, job, p);
      case Delete(_, c, k) =>
        assert k !in At(prev, c) ==> At(prev, c) - {k} == At(prev, c);
      case DeleteContext(_, c) =>
      case _ => SweepRight(prev, st, job, p);
    }
  }

  lemma UpdateRight(prev: Store, st: Store, job: Job, p: (string, string))
    requires job.event.Update? && MidWay(prev, st, job)
    ensures job.event.context in st
    ensures var (st', job', r) := Micro(st, job, p);
            && job'.event == job.event && job'.todo == job.todo
            && (r.None? ==> MidWay(prev, st', job') && job'.stage > job.stage)
            && (r.Some? ==> st' == After(prev, job.event) && r.value == Answer(prev, job.event))
  {
    var e := job.event;
    var c, k := e.context, e.key;
    if job.stage == 0 {
      assert st == prev[c := At(prev, c)];
      if Live(prev, c, k, e.time).Some? {
        assert At(prev, c)[k := At(prev, c)[k]] == At(prev, c);
      }
    } else {
      var ctx, r := At(prev, c), At(prev, c)[k];
      var next := Written(r, e.data, if job.stage == 1 then 0 else e.expiration);
      assert ctx[k := st[c][k]][k := next] == ctx[k := next];
      assert prev[c := ctx[k := st[c][k]]][c := ctx[k := next]] == prev[c := ctx[k := next]];
    }
  }

  lemma SweepRight(prev: Store, st: Store, job: Job, p: (string, string))
    requires Sweeping(job.event) && MidWay(prev, st, job) && (job.todo != {} ==> p in job.todo)
    ensures NeedsContext(job.event) ==> job.event.context in st
    ensures job.todo != {} ==> p.0 in st && p.1 in st[p.0]
    ensures job.todo == {} ==> st == After(prev, job.event) && Answer(prev, job.event) == Done
    ensures job.todo != {} ==> st[p.0 := Visit(st[p.0], p.1, job.event)] == Swept(prev, job.event, job.todo - {p})
  {
    hide SweptContext, Visit, Extended, Unexpired;
    var e := job.event;
    if job.todo == {} {
      forall c | c in Open(prev, e) ensures Swept(prev, e, {})[c] == After(prev, e)[c] {
        SweptDone(Open(prev, e)[c], c, e);
      }
      assert Swept(prev, e, {}) == After(prev, e);
    } else {
      assert p in Visited(prev, e);
      forall c | c in Open(prev, e) {
        SweptVisit(Open(prev, e)[c], c, e, job.todo, p);
      }
      assert st[p.0 := Visit(st[p.0], p.1, e)] == Swept(prev, e, job.todo - {p});
    }
  }

  // ---------------------------------------------------------------- threads

  // Where a thread is in its call.  `exclusive` says which of the two locks it holds; `at` is where its
  // operation stands in the history.
  datatype Phase =
    | Idle
    | Starting(req: Event)                            // no lock yet
    | Looking(req: Event)                             // read lock held, about to look the context up
    | Gap(req: Event)                                 // the context was missing; no lock
    | Making(req: Event)                              // write lock held, about to open the context
    | Ready(req: Event, exclusive: bool)              // reference held, about to look at the clock
    | Working(job: Job, exclusive: bool, at: nat)
    | Leaving(result: Result, exclusive: bool, at: nat)
    | Finished(result: Result)

  // A call: who asked for what, when, after how much of the history, and after which calls had returned;
  // and how it came out.
  datatype Invocation = Invocation(thread: Thread, req: Event, since: int, from: nat, before: set<nat>, outcome: Option<Outcome>)

  // What the caller heard, the operation's place in the history, when it returned, and how long the
  // history was then.
  datatype Outcome = Outcome(result: Result, at: nat, done: int, upto: nat)

  datatype Entry = Entry(call: nat, event: Event, result: Result)

  // `history` lists the operations in the order in which they began their work, with the answers the
  // sequential service would give; `calls` lists the calls in the order in which they were made, and
  // `current` says which of them is each thread's latest.
  datatype System = System(store: Store, readers: set<Thread>, writer: Option<Thread>, phases: map<Thread, Phase>,
                           clock: int, ghost history: seq<Entry>, ghost calls: seq<Invocation>, ghost current: map<Thread, nat>)

  datatype Action = Tick(seconds: nat) | Call(t: Thread, req: Event) | Move(t: Thread, pick: (string, string))

  predicate HoldsShared(p: Phase) {
    p.Looking? || ((p.Ready? || p.Working? || p.Leaving?) && !p.exclusive)
  }

  predicate HoldsExclusive(p: Phase) {
    p.Making? || ((p.Ready? || p.Working? || p.Leaving?) && p.exclusive)
  }

  // The cleanup thread looks at the clock before it asks for the lock, everything else after it got it.
  function Timed(req: Event, asked: bool, clock: int): Event {
    if req.Cleanup? == asked then req.(time := clock) else req
  }

  function Events(h: seq<Entry>): (r: seq<Event>)
    ensures |r| == |h|
  {
    seq(|h|, i requires 0 <= i < |h| => h[i].event)
  }

  // The store after the history, run by one thread.
  function Replayed(h: seq<Entry>): Store {
    Final(map[], Events(h))
  }

  // ---------------------------------------------------------------- the invariant

  ghost predicate LockOk(s: System) {
    && (s.writer.Some? ==> s.readers == {} && s.writer.value in s.phases) && s.readers <= s.phases.Keys
    && forall t :: t in s.phases ==>
         (t in s.readers <==> HoldsShared(s.phases[t])) && (s.writer == Some(t) <==> HoldsExclusive(s.phases[t]))
  }

  ghost predicate HistoryOk(h: seq<Entry>, clock: int) {
    && (forall i :: 0 <= i < |h| ==> h[i].event.time <= clock && h[i].result == Answer(Replayed(h[..i]), h[i].event))
    && (forall i, j :: 0 <= i < j < |h| && !h[j].event.Cleanup? ==> h[i].event.time <= h[j].event.time)
  }

  // The store is what the history says, but for what the one writer is doing.
  ghost predicate StoreOk(s: System) {
    if s.writer.None? || s.writer.value !in s.phases then s.store == Replayed(s.history)
    else
      match s.phases[s.writer.value]
      case Ready(req, _) => s.store == Open(Replayed(s.history), req)
      case Working(job, _, at) => at + 1 == |s.history| && MidWay(Replayed(s.history[..at]), s.store, job)
      case _ => s.store == Replayed(s.history)
  }

  // A shared holder reads a store that nobody is changing, in which its context exists.
  ghost predicate PhaseOk(s: System, t: Thread)
    requires t in s.phases
  {
    match s.phases[t]
    case Starting(req) => req.Cleanup? ==> req.time <= s.clock
    case Looking(req) => req.Read?
    case Gap(req) => req.Read?
    case Making(req) => NeedsContext(req)
    case Ready(req, exclusive) =>
      (!exclusive ==> req.Read? && req.context in s.store) && (req.Cleanup? ==> req.time <= s.clock)
    case Working(job, exclusive, at) =>
      && at < |s.history| && s.history[at].event == job.event
      && (!exclusive ==>
            job.event.Read? && job.event.context in s.store && Replayed(s.history[..at]) == s.store
            && MidWay(s.store, s.store, job))
    case Leaving(result, _, at) => at < |s.history| && s.history[at].result == result
    case _ => true
  }

  // What ties the threads and the history to the calls.
  ghost predicate Ledger(s: System) {
    && (forall i :: 0 <= i < |s.history| ==> EntryOk(s, i))
    && (forall i, j :: 0 <= i < j < |s.history| ==> s.history[i].call != s.history[j].call)
    && (forall c :: 0 <= c < |s.calls| ==> CallOk(s, c))
    && (forall t :: t in s.phases ==> TicketOk(s, t))
  }

  // An entry of the history is what some call asked for, at a time and a place after the call was made.
  ghost predicate EntryOk(s: System, i: nat)
    requires i < |s.history|
  {
    var e := s.history[i];
    && e.call < |s.calls|
    && var call := s.calls[e.call];
       && call.from <= i && call.since <= e.event.time <= s.clock
       && e.event == call.req.(time := e.event.time)
  }

  // A call that returned has its entry, from before it returned, and the answer there; one that did not is
  // its thread's current one.  The calls that had returned before it was made come earlier in the history.
  ghost predicate CallOk(s: System, c: nat)
    requires c < |s.calls|
  {
    var call := s.calls[c];
    && call.from <= |s.history| && call.since <= s.clock
    && (forall a :: a in call.before ==> a < c && s.calls[a].outcome.Some? && s.calls[a].outcome.value.upto <= call.from)
    && match call.outcome
       case Some(o) =>
         && o.at < o.upto <= |s.history| && s.history[o.at].call == c && s.history[o.at].result == o.result
         && s.history[o.at].event.time <= o.done <= s.clock
       case None =>
         && call.thread in s.phases && call.thread in s.current && s.current[call.thread] == c
         && !s.phases[call.thread].Idle? && !s.phases[call.thread].Finished?
  }

  // A thread is at work on its current call; until it began, the call has no entry.
  ghost predicate TicketOk(s: System, t: Thread)
    requires t in s.phases
  {
    s.phases[t].Idle?
    || (&& t in s.current && s.current[t] < |s.calls|
        && var c := s.current[t];
           && s.calls[c].thread == t && (s.calls[c].outcome.None? <==> !s.phases[t].Finished?)
           && match s.phases[t]
              case Starting(req) => Pending(s, c, req)
              case Looking(req) => Pending(s, c, req)
              case Gap(req) => Pending(s, c, req)
              case Making(req) => Pending(s, c, req)
              case Ready(req, _) => Pending(s, c, req)
              case Working(_, _, at) => at < |s.history| && s.history[at].call == c
              case Leaving(_, _, at) => at < |s.history| && s.history[at].call == c
              case Finished(result) => s.calls[c].outcome.value.result == result
              case _ => true)
  }

  ghost predicate Pending(s: System, c: nat, req: Event)
    requires c < |s.calls|
  {
    && req == s.calls[c].req.(time := req.time) && (req.Cleanup? ==> s.calls[c].since <= req.time <= s.clock)
    && forall i :: 0 <= i < |s.history| ==> s.history[i].call != c
  }

  ghost predicate Core(s: System) {
    LockOk(s) && HistoryOk(s.history, s.clock) && StoreOk(s) && forall t :: t in s.phases ==> PhaseOk(s, t)
  }

  ghost predicate Inv(s: System) {
    Core(s) && Ledger(s)
  }

  // ---------------------------------------------------------------- steps

  // A lock is granted only when it is free for the asker; everything else can always go on.
  predicate Enabled(s: System, a: Action) {
    match a
    case Tick(_) => true
    case Call(t, _) => t in s.phases && (s.phases[t].Idle? || s.phases[t].Finished?)
    case Move(t, pick) =>
      && t in s.phases
      && match s.phases[t]
         case Idle => false
         case Finished(_) => false
         case Starting(req) => s.writer.None? && (req.Read? || s.readers == {})
         case Gap(_) => s.writer.None? && s.readers == {}
         case Working(job, _, _) => Sweeping(job.event) && job.todo != {} ==> pick in job.todo
         case _ => true
  }

  // While it works, a thread's reference is good: what it is about to touch is there.
  lemma ReferenceValid(s: System, t: Thread, pick: (string, string))
    requires Core(s) && t in s.phases && s.phases[t].Working? && Enabled(s, Move(t, pick))
    ensures var job := s.phases[t].job;
            && (NeedsContext(job.event) ==> job.event.context in s.store)
            && (Sweeping(job.event) && job.todo != {} ==> pick in job.todo && pick.0 in s.store && pick.1 in s.store[pick.0])
  {
    assert PhaseOk(s, t);
    var prev := if s.phases[t].exclusive then Replayed(s.history[..s.phases[t].at]) else s.store;
    MicroRight(prev, s.store, s.phases[t].job, pick);
  }

  ghost function Do(s: System, a: Action): System
    requires Inv(s) && Enabled(s, a)
  {
    match a
    case Tick(n) => s.(clock := s.clock + n)
    case Call(t, req) =>
      var returned := set c | 0 <= c < |s.calls| && s.calls[c].outcome.Some?;
      s.(phases := s.phases[t := Starting(Timed(req, true, s.clock))], current := s.current[t := |s.calls|],
         calls := s.calls + [Invocation(t, req, s.clock, |s.history|, returned, None)])
    case Move(t, pick) =>
      assert TicketOk(s, t) && PhaseOk(s, t);
      match s.phases[t]
      case Starting(req) =>
        if req.Read? then s.(readers := s.readers + {t}, phases := s.phases[t := Looking(req)])
        else s.(writer := Some(t), phases := s.phases[t := if NeedsContext(req) then Making(req) else Ready(req, true)])
      case Looking(req) =>
        if req.context in s.store then s.(phases := s.phases[t := Ready(req, false)])
        else s.(readers := s.readers - {t}, phases := s.phases[t := Gap(req)])
      case Gap(req) => s.(writer := Some(t), phases := s.phases[t := Making(req)])
      case Making(req) =>
        s.(store := s.store[req.context := At(s.store, req.context)], phases := s.phases[t := Ready(req, true)])
      case Ready(req, exclusive) =>
        var e := Timed(req, false, s.clock);
        s.(history := s.history + [Entry(s.current[t], e, Answer(Replayed(s.history), e))],
           phases := s.phases[t := Working(Job(e, 0, Visited(s.store, e), None), exclusive, |s.history|)])
      case Working(job, exclusive, at) =>
        ReferenceValid(s, t, pick);
        var (st, next, r) := Micro(s.store, job, pick);
        if r.None? then s.(store := st, phases := s.phases[t := Working(next, exclusive, at)])
        else s.(store := st, phases := s.phases[t := Leaving(r.value, exclusive, at)])
      case Leaving(result, exclusive, at) =>
        var c := s.current[t];
        s.(readers := s.readers - {t}, writer := if exclusive then None else s.writer,
           phases := s.phases[t := Finished(result)],
           calls := s.calls[c := s.calls[c].(outcome := Some(Outcome(result, at, s.clock, |s.history|)))])
      case _ => s
  }

  // ---------------------------------------------------------------- every step keeps the invariant

  lemma ReplayedAppend(h: seq<Entry>, x: Entry)
    ensures Replayed(h + [x]) == After(Replayed(h), x.event)
    ensures forall i :: 0 <= i <= |h| ==> (h + [x])[..i] == h[..i]
  {
    assert Events(h + [x])[..|h|] == Events(h);
  }

  // A thread that did not move is as well off as before, if the history only grew and the store is the
  // same or it was not reading.
  lemma PhaseKept(s: System, s': System, t: Thread)
    requires t in s.phases && t in s'.phases && PhaseOk(s, t) && s'.phases[t] == s.phases[t]
    requires s.clock <= s'.clock
    requires |s.history| <= |s'.history| && s'.history[..|s.history|] == s.history
    requires s'.store == s.store || !HoldsShared(s.phases[t])
    ensures PhaseOk(s', t)
  {
    forall i | 0 <= i < |s.history| ensures s'.history[i] == s.history[i] && s'.history[..i] == s.history[..i] {
      assert s'.history[..|s.history|][i] == s.history[i];
      assert s'.history[..|s.history|][..i] == s'.history[..i];
    }
  }

  // Steps that touch neither the store nor the history.
  lemma LockStep(s: System, t: Thread, pick: (string, string))
    requires Inv(s) == true && Enabled(s, Move(t, pick))
    requires s.phases[t].Starting? || s.phases[t].Looking? || s.phases[t].Gap? || s.phases[t].Leaving?
    ensures Core(Do(s, Move(t, pick))) == true
  {
    hide Core, Ledger;
    match s.phases[t] {
      case Looking(_) => LookStep(s, t, pick);
      case Leaving(_, _, _) => LeaveStep(s, t, pick);
      case _ => LockedStep(s, t, pick);
    }
  }

  lemma LockedStep(s: System, t: Thread, pick: (string, string))
    requires Inv(s) == true && Enabled(s, Move(t, pick)) && (s.phases[t].Starting? || s.phases[t].Gap?)
    ensures Core(Do(s, Move(t, pick))) == true
  {
    hide Ledger, TicketOk, Final, MidWay, Answer, Events, HistoryOk;
    Ticketed(s, t);
    var s' := Do(s, Move(t, pick));
    assert PhaseOk(s, t);
    forall u | u in s'.phases ensures PhaseOk(s', u) {
      assert PhaseOk(s, u);
      if u != t { PhaseKept(s, s', u); }
    }
  }

  lemma LookStep(s: System, t: Thread, pick: (string, string))
    requires Inv(s) == true && Enabled(s, Move(t, pick)) && s.phases[t].Looking?
    ensures Core(Do(s, Move(t, pick))) == true
  {
    hide Ledger, TicketOk, Final, MidWay, Answer, Open, Events, HistoryOk;
    Ticketed(s, t);
    var s' := Do(s, Move(t, pick));
    assert PhaseOk(s, t);
    forall u | u in s'.phases ensures PhaseOk(s', u) {
      assert PhaseOk(s, u);
      if u != t { PhaseKept(s, s', u); }
    }
  }

  lemma LeaveStep(s: System, t: Thread, pick: (string, string))
    requires Inv(s) == true && Enabled(s, Move(t, pick)) && s.phases[t].Leaving?
    ensures Core(Do(s, Move(t, pick))) == true
  {
    hide Ledger, TicketOk, Final, MidWay, Answer, Open, Events, HistoryOk;
    Ticketed(s, t);
    var s' := Do(s, Move(t, pick));
    assert PhaseOk(s, t);
    forall u | u in s'.phases ensures PhaseOk(s', u) {
      assert PhaseOk(s, u);
      if u != t { PhaseKept(s, s', u); }
    }
  }

  lemma MakingStep(s: System, t: Thread, pick: (string, string))
    requires Inv(s) == true && Enabled(s, Move(t, pick)) && s.phases[t].Making?
    ensures Core(Do(s, Move(t, pick))) == true
  {
    hide Ledger, TicketOk, Final, MidWay, Answer;
    var s' := Do(s, Move(t, pick));
    assert PhaseOk(s, t);
    forall u | u in s'.phases ensures PhaseOk(s', u) {
      assert PhaseOk(s, u);
      if u != t { PhaseKept(s, s', u); }
    }
  }

  lemma HistoryGrows(h: seq<Entry>, x: Entry, clock: int)
    requires HistoryOk(h, clock) && (if x.event.Cleanup? then x.event.time <= clock else x.event.time == clock)
             && x.result == Answer(Replayed(h), x.event)
    ensures HistoryOk(h + [x], clock)
  {
    hide Replayed, Answer;
    forall i | 0 <= i < |h| + 1 ensures (h + [x])[..i] == h[..i] {
    }
    assert h[..|h|] == h;
  }

  lemma Ticketed(s: System, t: Thread)
    requires Inv(s) == true && t in s.phases && !s.phases[t].Idle?
    ensures TicketOk(s, t) && t in s.current
  {
  }

  // What looking at the clock means: the operation joins the history, and its work begins on the store
  // the history had left.
  lemma Sampled(s: System, t: Thread, e: Event)
    requires Inv(s) && t in s.phases && t in s.current && s.phases[t].Ready? && e == Timed(s.phases[t].req, false, s.clock)
    ensures var h' := s.history + [Entry(s.current[t], e, Answer(Replayed(s.history), e))];
            && HistoryOk(h', s.clock) && h'[..|s.history|] == s.history
            && MidWay(Replayed(s.history), s.store, Job(e, 0, Visited(s.store, e), None))
            && (!s.phases[t].exclusive ==> Replayed(h') == s.store && Replayed(s.history) == s.store && e.Read?)
  {
    hide After, Answer, MidWay, Final;
    var h := s.history;
    var entry := Entry(s.current[t], e, Answer(Replayed(h), e));
    assert PhaseOk(s, t);
    ReplayedAppend(h, entry);
    HistoryGrows(h, entry, s.clock);
    MidWayStart(Replayed(h), e);
    assert Visited(s.store, e) == Visited(Replayed(h), e);
    assert Open(Replayed(h), e) == s.store;
    ReadingChangesNothing(s.store, e);
  }

  lemma ReadingChangesNothing(st: Store, e: Event)
    ensures e.Read? && e.context in st ==> After(st, e) == st
  {
  }

  lemma ClockStep(s: System, t: Thread, pick: (string, string))
    requires Inv(s) == true && Enabled(s, Move(t, pick)) && s.phases[t].Ready?
    ensures Core(Do(s, Move(t, pick))) == true
  {
    hide Ledger, TicketOk, MidWay, Answer, Visited, Replayed, HistoryOk;
    Ticketed(s, t);
    var s' := Do(s, Move(t, pick));
    Sampled(s, t, Timed(s.phases[t].req, false, s.clock));
    assert PhaseOk(s, t);
    forall u | u in s'.phases ensures PhaseOk(s', u) {
      assert PhaseOk(s, u);
      if u != t { PhaseKept(s, s', u); }
    }
  }

  // What one small step does to a system in order.
  lemma Worked(s: System, t: Thread, pick: (string, string))
    requires Inv(s) && Enabled(s, Move(t, pick)) && s.phases[t].Working?
    ensures var job := s.phases[t].job;
            && (NeedsContext(job.event) ==> job.event.context in s.store)
            && (Sweeping(job.event) && job.todo != {} ==> pick in job.todo && pick.0 in s.store && pick.1 in s.store[pick.0])
    ensures var (job, exclusive, at) := (s.phases[t].job, s.phases[t].exclusive, s.phases[t].at);
            var (st, next, r) := Micro(s.store, job, pick);
            && at < |s.history| && next.event == job.event && (!exclusive ==> st == s.store && job.event.context in st)
            && (r.None? ==> MidWay(if exclusive then Replayed(s.history[..at]) else s.store, st, next))
            && (r.Some? ==> r.value == s.history[at].result && (exclusive ==> st == Replayed(s.history)))
  {
    var h, at := s.history, s.phases[t].at;
    assert PhaseOk(s, t);
    var prev := Replayed(h[..at]);
    MicroRight(prev, s.store, s.phases[t].job, pick);
    assert h[at].result == Answer(prev, h[at].event);
    if s.phases[t].exclusive {
      assert h == h[..at] + [h[at]];
      ReplayedAppend(h[..at], h[at]);
    } else {
      ReadsOnly(s.store, s.phases[t].job, pick);
    }
  }

  // A small step that changes nothing but the store and the mover's phase leaves the others as they are.
  lemma OthersWork(s: System, s': System, t: Thread)
    requires Inv(s) == true && t in s.phases && s.phases[t].Working? && s'.phases.Keys == s.phases.Keys
    requires s'.history == s.history && s'.clock == s.clock && s'.readers == s.readers && s'.writer == s.writer
    requires forall u :: u in s.phases && u != t ==> s'.phases[u] == s.phases[u]
    requires !s.phases[t].exclusive ==> s'.store == s.store
    ensures forall u :: u in s'.phases && u != t ==> PhaseOk(s', u)
    ensures if s.phases[t].exclusive then s.writer == Some(t) && s.readers == {} else t in s.readers && s.writer == None
  {
    hide Ledger, StoreOk, HistoryOk, MidWay, Replayed;
    assert t in s.readers <==> HoldsShared(s.phases[t]);
    forall u | u in s'.phases && u != t ensures PhaseOk(s', u) {
      assert PhaseOk(s, u) && (HoldsShared(s.phases[u]) ==> u in s.readers);
      PhaseKept(s, s', u);
    }
  }

  lemma WorkStep(s: System, t: Thread, pick: (string, string))
    requires Inv(s) == true && Enabled(s, Move(t, pick)) && s.phases[t].Working?
    ensures Core(Do(s, Move(t, pick))) == true
  {
    hide Ledger, TicketOk, MidWay, Answer, Visited, Replayed, HistoryOk, Micro;
    Worked(s, t, pick);
    var (st, next, r) := Micro(s.store, s.phases[t].job, pick);
    if r.None? {
      WorkOn(s, Do(s, Move(t, pick)), t, st, next);
    } else {
      WorkDone(s, Do(s, Move(t, pick)), t, st, r.value);
    }
  }

  lemma WorkOn(s: System, s': System, t: Thread, st: Store, next: Job)
    requires Inv(s) == true && t in s.phases && s.phases[t].Working? && s.phases[t].at < |s.history|
    requires s' == s.(store := st, phases := s.phases[t := Working(next, s.phases[t].exclusive, s.phases[t].at)])
    requires next.event == s.phases[t].job.event
    requires !s.phases[t].exclusive ==> st == s.store && next.event.context in st
    requires MidWay(if s.phases[t].exclusive then Replayed(s.history[..s.phases[t].at]) else s.store, st, next) == true
    ensures Core(s') == true
  {
    hide Ledger, MidWay, Replayed, HistoryOk;
    OthersWork(s, s', t);
    assert PhaseOk(s, t);
  }

  lemma WorkDone(s: System, s': System, t: Thread, st: Store, result: Result)
    requires Inv(s) == true && t in s.phases && s.phases[t].Working? && s.phases[t].at < |s.history|
    requires s' == s.(store := st, phases := s.phases[t := Leaving(result, s.phases[t].exclusive, s.phases[t].at)])
    requires result == s.history[s.phases[t].at].result && (!s.phases[t].exclusive ==> st == s.store)
    requires s.phases[t].exclusive ==> st == Replayed(s.history)
    ensures Core(s') == true
  {
    hide Ledger, MidWay, Replayed, HistoryOk;
    OthersWork(s, s', t);
    assert PhaseOk(s, t);
  }

  lemma ReadsOnly(st: Store, job: Job, pick: (string, string))
    requires job.event.Read? && job.event.context in st
    ensures Micro(st, job, pick).0 == st && Micro(st, job, pick).1.event == job.event
  {
  }

  lemma TickStep(s: System, n: nat)
    requires Inv(s) == true
    ensures Core(Do(s, Tick(n))) == true
  {
    hide Ledger, TicketOk, Final, MidWay, Answer, Open, Events;
    forall t | t in s.phases ensures PhaseOk(Do(s, Tick(n)), t) {
      PhaseKept(s, Do(s, Tick(n)), t);
    }
  }

  lemma CallStep(s: System, t: Thread, req: Event)
    requires Inv(s) == true && Enabled(s, Call(t, req))
    ensures Core(Do(s, Call(t, req))) == true
  {
    hide Ledger, TicketOk, Final, MidWay, Answer, Open, Events;
    forall u | u in s.phases ensures PhaseOk(Do(s, Call(t, req)), u) {
      if u != t { PhaseKept(s, Do(s, Call(t, req)), u); }
    }
  }

  lemma StepKeepsCore(s: System, a: Action)
    requires Inv(s) == true && Enabled(s, a)
    ensures Core(Do(s, a)) == true
  {
    hide Inv, Core;
    match a {
      case Tick(n) => TickStep(s, n);
      case Call(t, req) => CallStep(s, t, req);
      case Move(t, pick) =>
        match s.phases[t] {
          case Making(_) => MakingStep(s, t, pick);
          case Ready(_, _) => ClockStep(s, t, pick);
          case Working(_, _, _) => WorkStep(s, t, pick);
          case _ => LockStep(s, t, pick);
        }
    }
  }

  // ---------------------------------------------------------------- the ledger

  // A step that leaves history and calls alone, and keeps the moving thread on its ticket.
  lemma QuietLedger(s: System, s': System, t: Thread)
    requires Ledger(s) && s'.history == s.history && s'.calls == s.calls && s'.current == s.current && s.clock <= s'.clock
    requires s'.phases.Keys == s.phases.Keys && forall u :: u in s.phases && u != t ==> s'.phases[u] == s.phases[u]
    requires t in s.phases ==> TicketOk(s', t) && (s.phases[t] == s'.phases[t] || (!s'.phases[t].Idle? && !s'.phases[t].Finished?))
    ensures Ledger(s')
  {
    forall i | 0 <= i < |s'.history| ensures EntryOk(s', i) {
      assert EntryOk(s, i);
    }
    forall c | 0 <= c < |s'.calls| ensures CallOk(s', c) {
      assert CallOk(s, c);
    }
    forall u | u in s'.phases ensures TicketOk(s', u) {
      assert TicketOk(s, u);
    }
  }

  lemma TickLedger(s: System, s': System)
    requires Ledger(s) && s.clock <= s'.clock && s' == s.(clock := s'.clock)
    ensures Ledger(s')
  {
    forall t | t in s.phases ensures TicketOk(s', t) {
      assert TicketOk(s, t);
    }
    if t :| t in s.phases {
      QuietLedger(s, s', t);
    } else {
      QuietLedger(s, s', 0);
    }
  }

  lemma CallLedger(s: System, t: Thread, req: Event)
    requires Inv(s) == true && Enabled(s, Call(t, req))
    ensures Ledger(Do(s, Call(t, req)))
  {
    hide Core;
    var s' := Do(s, Call(t, req));
    forall i | 0 <= i < |s'.history| ensures EntryOk(s', i) {
      assert EntryOk(s, i);
    }
    forall c | 0 <= c < |s'.calls| ensures CallOk(s', c) {
      if c < |s.calls| {
        assert CallOk(s, c);
        assert TicketOk(s, t);
      } else {
        forall a | 0 <= a < |s.calls| && s.calls[a].outcome.Some?
          ensures s'.calls[a] == s.calls[a] && s.calls[a].outcome.value.upto <= |s.history|
        {
          assert CallOk(s, a);
        }
      }
    }
    forall u | u in s'.phases ensures TicketOk(s', u) {
      assert TicketOk(s, u);
      if u == t {
        forall i | 0 <= i < |s'.history| ensures s'.history[i].call != |s.calls| {
          assert EntryOk(s, i);
        }
      }
    }
  }

  // The operation joins the history.
  lemma ClockLedger(s: System, t: Thread, pick: (string, string))
    requires Inv(s) == true && Enabled(s, Move(t, pick)) && s.phases[t].Ready?
    ensures Ledger(Do(s, Move(t, pick)))
  {
    hide Core, Visited, Answer, Replayed;
    var s' := Do(s, Move(t, pick));
    var c := s.current[t];
    assert TicketOk(s, t);
    assert CallOk(s, c);
    forall i | 0 <= i < |s'.history| ensures EntryOk(s', i) {
      if i < |s.history| { assert EntryOk(s, i); }
    }
    forall a | 0 <= a < |s'.calls| ensures CallOk(s', a) {
      assert CallOk(s, a);
    }
    forall u | u in s'.phases ensures TicketOk(s', u) {
      assert TicketOk(s, u);
    }
  }

  // The call returns.
  lemma LeaveLedger(s: System, t: Thread, pick: (string, string))
    requires Inv(s) == true && Enabled(s, Move(t, pick)) && s.phases[t].Leaving?
    ensures Ledger(Do(s, Move(t, pick)))
  {
    hide Core, CallOk, EntryOk;
    LeavingAnswer(s, t);
    var s' := Do(s, Move(t, pick));
    var c, at := s.current[t], s.phases[t].at;
    assert TicketOk(s, t);
    forall i | 0 <= i < |s'.history| ensures EntryOk(s', i) {
      SameEntry(s, s', c, i);
    }
    forall a | 0 <= a < |s'.calls| ensures CallOk(s', a) {
      CallLeaves(s, s', t, a);
    }
    forall u | u in s'.phases ensures TicketOk(s', u) {
      assert TicketOk(s, u);
    }
  }

  lemma LeavingAnswer(s: System, t: Thread)
    requires Inv(s) == true && t in s.phases && s.phases[t].Leaving?
    ensures s.phases[t].at < |s.history| && s.history[s.phases[t].at].result == s.phases[t].result
  {
    assert PhaseOk(s, t);
  }

  // An entry is as it was when a call's outcome becomes known.
  lemma SameEntry(s: System, s': System, c: nat, i: nat)
    requires i < |s.history| && EntryOk(s, i) && s'.history == s.history && s'.clock == s.clock && c < |s.calls|
    requires exists o :: s'.calls == s.calls[c := s.calls[c].(outcome := o)]
    ensures EntryOk(s', i)
  {
  }

  lemma CallLeaves(s: System, s': System, t: Thread, a: nat)
    requires Ledger(s) && t in s.phases && s.phases[t].Leaving? && a < |s.calls| && TicketOk(s, t)
    requires s'.history == s.history && s'.clock == s.clock && s'.current == s.current
    requires var c, p := s.current[t], s.phases[t];
             && p.at < |s.history| && s.history[p.at].result == p.result
             && s'.phases == s.phases[t := Finished(p.result)]
             && s'.calls == s.calls[c := s.calls[c].(outcome := Some(Outcome(p.result, p.at, s.clock, |s.history|)))]
    ensures CallOk(s', a)
  {
    var c := s.current[t];
    assert CallOk(s, a) && CallOk(s, c) && EntryOk(s, s.phases[t].at);
    forall b | b in s'.calls[a].before
      ensures b < a && s'.calls[b].outcome.Some? && s'.calls[b].outcome.value.upto <= s'.calls[a].from
    {
      assert b != c;
    }
  }

  lemma StepKeepsLedger(s: System, a: Action)
    requires Inv(s) == true && Enabled(s, a)
    ensures Ledger(Do(s, a)) == true
  {
    hide Core, Answer, Visited, Replayed, Micro, EntryOk, CallOk;
    match a {
      case Tick(n) => TickLedger(s, Do(s, a));
      case Call(t, req) => CallLedger(s, t, req);
      case Move(t, pick) =>
        assert TicketOk(s, t);
        if s.phases[t].Ready? {
          ClockLedger(s, t, pick);
        } else if s.phases[t].Leaving? {
          LeaveLedger(s, t, pick);
        } else {
          QuietLedger(s, Do(s, a), t);
        }
    }
  }

  lemma StepKeepsInv(s: System, a: Action)
    requires Inv(s) == true && Enabled(s, a)
    ensures Inv(Do(s, a)) == true
  {
    StepKeepsCore(s, a);
    StepKeepsLedger(s, a);
    hide Core, Ledger;
  }

  // ---------------------------------------------------------------- what it means for callers

  // The context map changes only under the write lock.
  lemma WritesNeedTheLock(s: System, a: Action)
    requires Inv(s) && Enabled(s, a) && Do(s, a).store != s.store
    ensures a.Move? && s.writer == Some(a.t) && s.readers == {}
  {
    match a {
      case Move(t, pick) =>
        assert PhaseOk(s, t);
        if s.phases[t].Working? && !s.phases[t].exclusive {
          ReferenceValid(s, t, pick);
          ReadsOnly(s.store, s.phases[t].job, pick);
        }
      case _ =>
    }
  }

  // The read-to-write upgrade in any run: when the thread has the context, it holds just what all the
  // operations so far left there, whatever others did between the two locks.
  lemma UpgradeLosesNothing(threads: set<Thread>, clock: int, actions: seq<Action>, t: Thread)
    requires EnabledAll(Start(threads, clock), actions) == true
    requires var s := RunAll(Start(threads, clock), actions);
             t in s.phases && s.phases[t].Ready? && s.phases[t].exclusive && NeedsContext(s.phases[t].req)
    ensures var s := RunAll(Start(threads, clock), actions);
            var c := s.phases[t].req.context;
            && c in s.store && s.store[c] == At(Final(map[], Events(s.history)), c)
            && forall d :: d != c ==> At(s.store, d) == At(Final(map[], Events(s.history)), d)
  {
    hide Ledger, HistoryOk, Final, EnabledAll;
    var s := RunAll(Start(threads, clock), actions);
    assert s.writer == Some(t);
  }

  ghost predicate EnabledAll(s: System, actions: seq<Action>)
    requires Inv(s)
    decreases actions
  {
    actions == [] || (Enabled(s, actions[0]) && (StepKeepsInv(s, actions[0]); EnabledAll(Do(s, actions[0]), actions[1..])))
  }

  ghost function RunAll(s: System, actions: seq<Action>): (r: System)
    requires Inv(s) && EnabledAll(s, actions)
    ensures Inv(r)
    decreases actions
  {
    if actions == [] then s
    else
      StepKeepsInv(s, actions[0]);
      RunAll(Do(s, actions[0]), actions[1..])
  }

  ghost function Start(threads: set<Thread>, clock: int): (s: System)
    ensures Inv(s)
  {
    System(map[], {}, None, map t | t in threads :: Idle, clock, [], [], map[])
  }

  ghost predicate Quiet(s: System) {
    forall t :: t in s.phases ==> s.phases[t].Idle? || s.phases[t].Finished?
  }

  // The history is one sequential run, in the order of the clock, but that a cleanup pass may go by an
  // earlier time; it leaves the store as it is when nobody is at work.
  ghost predicate Sequential(s: System) {
    var run := Events(s.history);
    && (forall i, j :: 0 <= i < j < |run| && !run[j].Cleanup? ==> run[i].time <= run[j].time)
    && (forall i :: 0 <= i < |run| ==> s.history[i].result == Answer(Final(map[], run[..i]), run[i]))
    && (Quiet(s) ==> s.store == Final(map[], run) && s.readers == {} && s.writer == None)
  }

  // And it is the run of the calls that were made: each entry is what its own call asked for, at a time
  // after the call; each call that returned has one, from a time before it returned, with the answer its
  // caller got; calls that had returned before another was made come before it; a thread that returned
  // heard its current call's answer and holds no lock; and when nobody is at work every call has returned.
  ghost predicate Attributed(s: System) {
    && (forall i :: 0 <= i < |s.history| ==> EntryOk(s, i))
    && (forall i, j :: 0 <= i < j < |s.history| ==> s.history[i].call != s.history[j].call)
    && (forall c :: 0 <= c < |s.calls| && s.calls[c].outcome.Some? ==> Returned(s, c))
    && (forall t :: t in s.phases && s.phases[t].Finished? ==> Heard(s, t))
    && (Quiet(s) ==> forall c :: 0 <= c < |s.calls| ==> s.calls[c].outcome.Some?)
  }

  ghost predicate Returned(s: System, c: nat)
    requires c < |s.calls| && s.calls[c].outcome.Some?
  {
    var call, o := s.calls[c], s.calls[c].outcome.value;
    && o.at < o.upto <= |s.history| && s.history[o.at].call == c && s.history[o.at].result == o.result
    && call.since <= s.history[o.at].event.time <= o.done
    && forall a :: a in call.before ==>
         a < c && s.calls[a].outcome.Some? && s.calls[a].outcome.value.at < o.at
  }

  ghost predicate Heard(s: System, t: Thread)
    requires t in s.phases && s.phases[t].Finished?
  {
    && t in s.current && s.current[t] < |s.calls| && s.calls[s.current[t]].thread == t
    && s.calls[s.current[t]].outcome.Some? && s.calls[s.current[t]].outcome.value.result == s.phases[t].result
    && t !in s.readers && s.writer != Some(t)
  }

  lemma InvSequential(s: System)
    requires Inv(s) == true
    ensures Sequential(s) == true && Attributed(s) == true
  {
    hide Sequential, Attributed;
    CoreSequential(s);
    LedgerAttributed(s);
  }

  lemma CoreSequential(s: System)
    requires Core(s) == true
    ensures Sequential(s) == true
  {
    hide PhaseOk, MidWay, Open, Answer, Final;
    forall i | 0 <= i < |s.history| ensures Events(s.history[..i]) == Events(s.history)[..i] {
    }
    if Quiet(s) {
      assert forall t :: t in s.phases ==> !HoldsShared(s.phases[t]) && !HoldsExclusive(s.phases[t]);
    }
  }

  lemma LedgerAttributed(s: System)
    requires Inv(s) == true
    ensures Attributed(s) == true
  {
    hide HistoryOk, StoreOk, PhaseOk;
    forall c | 0 <= c < |s.calls| && s.calls[c].outcome.Some? ensures Returned(s, c) {
      CallReturned(s, c);
    }
    forall t | t in s.phases && s.phases[t].Finished? ensures Heard(s, t) {
      assert TicketOk(s, t);
    }
    if Quiet(s) {
      forall c | 0 <= c < |s.calls| ensures s.calls[c].outcome.Some? {
        assert CallOk(s, c);
      }
    }
  }

  lemma CallReturned(s: System, c: nat)
    requires Inv(s) == true && c < |s.calls| && s.calls[c].outcome.Some?
    ensures Returned(s, c)
  {
    hide Core;
    assert CallOk(s, c);
    assert EntryOk(s, s.calls[c].outcome.value.at);
    forall a | a in s.calls[c].before
      ensures a < c && s.calls[a].outcome.Some? && s.calls[a].outcome.value.at < s.calls[c].outcome.value.at
    {
      assert CallOk(s, a);
    }
  }

  // The calls the actions make, in order, and those a system lists.
  function CallsIn(actions: seq<Action>): seq<(Thread, Event)> {
    if actions == [] then []
    else (if actions[0].Call? then [(actions[0].t, actions[0].req)] else []) + CallsIn(actions[1..])
  }

  ghost function Asked(s: System): (r: seq<(Thread, Event)>)
    ensures |r| == |s.calls|
  {
    seq(|s.calls|, i requires 0 <= i < |s.calls| => (s.calls[i].thread, s.calls[i].req))
  }

  lemma StepAsks(s: System, a: Action)
    requires Inv(s) == true && Enabled(s, a)
    ensures Asked(Do(s, a)) == Asked(s) + if a.Call? then [(a.t, a.req)] else []
  {
    hide Core, Answer, Micro;
  }

  lemma {:induction false} RunAsks(s: System, actions: seq<Action>)
    requires Inv(s) == true && EnabledAll(s, actions)
    ensures Asked(RunAll(s, actions)) == Asked(s) + CallsIn(actions)
    decreases actions
  {
    hide Do, Asked, Inv, Enabled;
    if actions != [] {
      StepKeepsInv(s, actions[0]);
      StepAsks(s, actions[0]);
      RunAsks(Do(s, actions[0]), actions[1..]);
    }
  }

  // Whatever the threads do and however they interleave, what they see is some sequential run of just the
  // calls they made.
  lemma Linearizable(threads: set<Thread>, clock: int, actions: seq<Action>)
    requires EnabledAll(Start(threads, clock), actions) == true
    ensures var s := RunAll(Start(threads, clock), actions);
            Sequential(s) == true && Attributed(s) == true && Asked(s) == CallsIn(actions)
  {
    hide Sequential, Attributed, Inv, EnabledAll, RunAll, Final, Events;
    InvSequential(RunAll(Start(threads, clock), actions));
    RunAsks(Start(threads, clock), actions);
    assert Asked(Start(threads, clock)) == [];
  }

  // ---------------------------------------------------------------- progress

  // How many kinds of phases a call has yet to go through, and how many small steps its work has left.
  function PhasesLeft(p: Phase): nat {
    match p
    case Starting(_) => 6
    case Looking(_) => 5
    case Gap(_) => 4
    case Making(_) => 3
    case Ready(_, _) => 2
    case Working(_, _, _) => 1
    case Leaving(_, _, _) => 1
    case _ => 0
  }

  function StepsLeft(p: Phase): nat {
    match p
    case Working(job, _, _) => 1 + |job.todo| + if job.stage < 3 then 3 - job.stage else 0
    case _ => 0
  }

  // Every step of a thread brings its call closer to its return, whatever the others do.
  lemma StepAdvances(s: System, t: Thread, pick: (string, string))
    requires Inv(s) == true && Enabled(s, Move(t, pick))
    ensures t in Do(s, Move(t, pick)).phases
    ensures var p, q := s.phases[t], Do(s, Move(t, pick)).phases[t];
            PhasesLeft(q) < PhasesLeft(p) || (PhasesLeft(q) == PhasesLeft(p) && StepsLeft(q) < StepsLeft(p))
    ensures forall u :: u in s.phases && u != t ==> u in Do(s, Move(t, pick)).phases && Do(s, Move(t, pick)).phases[u] == s.phases[u]
  {
    hide Ledger, LockOk, HistoryOk, Micro, Answer, MidWay;
    Ticketed(s, t);
    if s.phases[t].Working? {
      WorkAdvances(s, t, pick);
    }
  }

  lemma WorkAdvances(s: System, t: Thread, pick: (string, string))
    requires Inv(s) == true && Enabled(s, Move(t, pick)) && s.phases[t].Working?
    ensures var job := s.phases[t].job;
            && (NeedsContext(job.event) ==> job.event.context in s.store)
            && (Sweeping(job.event) && job.todo != {} ==> pick in job.todo && pick.0 in s.store && pick.1 in s.store[pick.0])
            && var (_, next, r) := Micro(s.store, job, pick);
               r.None? ==> |next.todo| + (if next.stage < 3 then 3 - next.stage else 0) < |job.todo| + (if job.stage < 3 then 3 - job.stage else 0)
  {
    ReferenceValid(s, t, pick);
    assert PhaseOk(s, t);
    var job := s.phases[t].job;
    var prev := if s.phases[t].exclusive then Replayed(s.history[..s.phases[t].at]) else s.store;
    StagesUpTo(prev, s.store, job);
    hide MidWay, PhaseOk, Inv;
    if Sweeping(job.event) && job.todo != {} {
      assert |job.todo - {pick}| < |job.todo|;
    }
  }

  lemma StagesUpTo(prev: Store, st: Store, job: Job)
    requires MidWay(prev, st, job)
    ensures job.event.Read? || job.event.Create? ==> job.stage <= 1
    ensures job.event.Update? ==> job.stage <= 3
  {
  }

  // As long as a call is on its way, some thread can take a step: the locks never block everybody.
  lemma NoDeadlock(s: System, t: Thread)
    requires Inv(s) == true && t in s.phases && !s.phases[t].Idle? && !s.phases[t].Finished?
    ensures exists u, pick :: Enabled(s, Move(u, pick))
  {
    hide Ledger, HistoryOk, StoreOk, PhaseOk;
    var u := t;
    if s.writer.Some? {
      u := s.writer.value;
    } else if s.readers != {} {
      u :| u in s.readers;
    }
    var pick := ("", "");
    if s.phases[u].Working? && s.phases[u].job.todo != {} {
      pick :| pick in s.phases[u].job.todo;
    }
    assert Enabled(s, Move(u, pick));
  }

  // The history is also a run by a clock that never goes back for anything callers ask, so what is
  // proved of such runs, such as that reaping is invisible, holds of the threads.
  lemma HistoryMonotone(s: System, now: int)
    requires Inv(s) && forall i :: 0 <= i < |s.history| ==> now <= s.history[i].event.time
    ensures Monotone(Events(s.history), now)
  {
  }
}
