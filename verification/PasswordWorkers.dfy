/** Bounded password work: a request waits for one of four tokens, then hands its token to a
    shielded worker that outlives the request and gives the token back exactly once. */
module PasswordWorkers {

  type Id = nat

  const PASSWORD_WORKER_LIMIT: nat := 4

  datatype Phase =
    | Waiting                   // suspended in acquire_on_behalf_of
    | Cancelled                 // cancelled while waiting
    | Admitted                  // holds a token, worker task not created yet
    | SpawnFailed               // create_task raised
    | Running(detached: bool)   // bcrypt job in flight; detached once the caller is cancelled
    | Finished

  /** A request, with the number of times a token was taken and given back on its behalf. */
  datatype Caller = Caller(phase: Phase, taken: nat, returned: nat)

  datatype Pool = Pool(callers: map<Id, Caller>, queue: seq<Id>, holders: set<Id>)

  datatype Event =
    | Arrive(id: Id) | CancelWaiting(id: Id)
    | Spawn(id: Id) | FailToSpawn(id: Id)
    | CancelCaller(id: Id) | Finish(id: Id)

  const IDLE := Pool(map[], [], {})

  predicate HoldsToken(c: Caller) { c.phase.Admitted? || c.phase.Running? }

  predicate In(p: Pool, id: Id, phase: Phase) { id in p.callers && p.callers[id].phase == phase }

  function Enter(p: Pool, id: Id, phase: Phase): Pool
    requires id in p.callers
  {
    p.(callers := p.callers[id := p.callers[id].(phase := phase)])
  }

  /** The limiter grants a token to a request that was not holding one. */
  function Take(p: Pool, id: Id): Pool
    requires id in p.callers
  {
    p.(callers := p.callers[id := p.callers[id].(phase := Admitted, taken := p.callers[id].taken + 1)],
       holders := p.holders + {id})
  }

  function GiveBack(p: Pool, id: Id, phase: Phase): Pool
    requires id in p.callers
  {
    p.(callers := p.callers[id := p.callers[id].(phase := phase, returned := p.callers[id].returned + 1)],
       holders := p.holders - {id})
  }

  /** A free token goes to the longest-waiting request, if any. */
  function Notify(p: Pool): Pool {
    if p.queue != [] && p.queue[0] in p.callers && |p.holders| < PASSWORD_WORKER_LIMIT
    then Take(p.(queue := p.queue[1..]), p.queue[0])
    else p
  }

  function Release(p: Pool, id: Id, phase: Phase): Pool
    requires id in p.callers
  {
    Notify(GiveBack(p, id, phase))
  }

  function Without(queue: seq<Id>, id: Id): seq<Id> {
    if queue == [] then [] else (if queue[0] == id then [] else [queue[0]]) + Without(queue[1..], id)
  }

  /** Events that are not possible in a state leave it unchanged. */
  function Step(p: Pool, e: Event): Pool {
    match e
    case Arrive(id) =>
      if id in p.callers then p
      else Notify(Pool(p.callers[id := Caller(Waiting, 0, 0)], p.queue + [id], p.holders))
    case CancelWaiting(id) =>
      if In(p, id, Waiting) then Enter(p, id, Cancelled).(queue := Without(p.queue, id)) else p
    case Spawn(id) =>
      if In(p, id, Admitted) then Enter(p, id, Running(false)) else p
    case FailToSpawn(id) =>
      if In(p, id, Admitted) then Release(p, id, SpawnFailed) else p
    case CancelCaller(id) =>
      if In(p, id, Running(false)) then Enter(p, id, Running(true)) else p
    case Finish(id) =>
      if id in p.callers && p.callers[id].phase.Running? then Release(p, id, Finished) else p
  }

  function Run(p: Pool, events: seq<Event>): Pool
    decreases |events|
  {
    if events == [] then p else Run(Step(p, events[0]), events[1..])
  }

  // ---------- the invariant ----------

  predicate Distinct(queue: seq<Id>) { forall i, j | 0 <= i < j < |queue| :: queue[i] != queue[j] }

  /** Each phase fixes how often a token was taken and given back. */
  predicate Balanced(c: Caller) {
    match c.phase
    case Waiting | Cancelled => c.taken == 0 && c.returned == 0
    case Admitted | Running(_) => c.taken == 1 && c.returned == 0
    case SpawnFailed | Finished => c.taken == 1 && c.returned == 1
  }

  /** Everything except that no token idles while somebody waits. */
  ghost predicate Consistent(p: Pool) {
    && |p.holders| <= PASSWORD_WORKER_LIMIT
    && (forall id :: id in p.holders <==> id in p.callers && HoldsToken(p.callers[id]))
    && Distinct(p.queue)
    && (forall id :: id in p.queue <==> In(p, id, Waiting))
    && (forall id | id in p.callers :: Balanced(p.callers[id]))
  }

  ghost predicate Invariant(p: Pool) {
    Consistent(p) && (p.queue != [] ==> |p.holders| == PASSWORD_WORKER_LIMIT)
  }

  lemma {:induction false} WithoutRemovesOne(queue: seq<Id>, id: Id)
    requires Distinct(queue)
    ensures Distinct(Without(queue, id))
    ensures forall x :: x in Without(queue, id) <==> x in queue && x != id
  {
    if queue != [] {
      var head, rest := queue[0], queue[1..];
      assert queue == [head] + rest && head !in rest;
      WithoutRemovesOne(rest, id);
      if head == id {
        assert Without(queue, id) == Without(rest, id);
      } else {
        assert Without(queue, id) == [head] + Without(rest, id);
      }
    }
  }

  /** With at most one request more than tokens allow, notifying restores the invariant. */
  lemma NotifyRestores(p: Pool)
    requires Consistent(p) && (|p.queue| > 1 ==> |p.holders| >= PASSWORD_WORKER_LIMIT - 1)
    ensures Invariant(Notify(p))
  {
    if p.queue != [] {
      var head, rest := p.queue[0], p.queue[1..];
      assert p.queue == [head] + rest;
      assert In(p, head, Waiting) && head !in p.holders;
      if |p.holders| < PASSWORD_WORKER_LIMIT {
        assert |p.holders + {head}| == |p.holders| + 1;
        assert forall x :: x in rest <==> x in p.queue && x != head;
      }
    }
  }

  lemma GiveBackStaysConsistent(p: Pool, id: Id, phase: Phase)
    requires Invariant(p) && id in p.holders && (phase.SpawnFailed? || phase.Finished?)
    ensures var q := GiveBack(p, id, phase);
            Consistent(q) && (q.queue != [] ==> |q.holders| == PASSWORD_WORKER_LIMIT - 1)
  {
    assert |p.holders - {id}| == |p.holders| - 1;
  }

  lemma ArrivalStaysConsistent(p: Pool, id: Id)
    requires Invariant(p) && id !in p.callers
    ensures Consistent(Pool(p.callers[id := Caller(Waiting, 0, 0)], p.queue + [id], p.holders))
  {
    assert id !in p.queue && id !in p.holders;
  }

  lemma CancelKeepsInvariant(p: Pool, id: Id)
    requires Invariant(p) && In(p, id, Waiting)
    ensures Invariant(Enter(p, id, Cancelled).(queue := Without(p.queue, id)))
  {
    WithoutRemovesOne(p.queue, id);
    assert id in p.queue;
  }

  /** A worker starts, or outlives its caller: the token stays where it is. */
  lemma HolderKeepsInvariant(p: Pool, id: Id, phase: Phase)
    requires Invariant(p) && id in p.callers && HoldsToken(p.callers[id]) && phase.Running?
    ensures Invariant(Enter(p, id, phase))
  {
    assert Balanced(p.callers[id]);
  }

  lemma StepKeepsInvariant(p: Pool, e: Event)
    requires Invariant(p)
    ensures Invariant(Step(p, e))
  {
    assert forall id | id in p.callers && HoldsToken(p.callers[id]) :: id in p.holders;
    assert Consistent(p) && (p.queue != [] ==> |p.holders| == PASSWORD_WORKER_LIMIT);
    hide Invariant, Consistent, Notify, GiveBack, Enter, Without;
    match e
    case Arrive(id) =>
      if id !in p.callers {
        ArrivalStaysConsistent(p, id);
        NotifyRestores(Pool(p.callers[id := Caller(Waiting, 0, 0)], p.queue + [id], p.holders));
      }
    case CancelWaiting(id) => if In(p, id, Waiting) { CancelKeepsInvariant(p, id); }
    case FailToSpawn(id) =>
      if In(p, id, Admitted) {
        GiveBackStaysConsistent(p, id, SpawnFailed);
        NotifyRestores(GiveBack(p, id, SpawnFailed));
      }
    case Finish(id) =>
      if id in p.callers && p.callers[id].phase.Running? {
        GiveBackStaysConsistent(p, id, Finished);
        NotifyRestores(GiveBack(p, id, Finished));
      }
    case Spawn(id) => if In(p, id, Admitted) { HolderKeepsInvariant(p, id, Running(false)); }
    case CancelCaller(id) => if In(p, id, Running(false)) { HolderKeepsInvariant(p, id, Running(true)); }
  }

  lemma {:induction false} RunKeepsInvariant(p: Pool, events: seq<Event>)
    requires Invariant(p)
    ensures Invariant(Run(p, events))
    decreases |events|
  {
    hide Invariant, Step;
    if events != [] {
      StepKeepsInvariant(p, events[0]);
      RunKeepsInvariant(Step(p, events[0]), events[1..]);
    }
  }

  // ---------- what follows for every interleaving ----------

  function RunningJobs(p: Pool): set<Id> { set id | id in p.callers && p.callers[id].phase.Running? }

  lemma SubsetBound(a: set<Id>, b: set<Id>)
    requires a <= b
    ensures |a| <= |b|
    decreases b
  {
    if a != {} {
      var x :| x in a;
      SubsetBound(a - {x}, b - {x});
    }
  }

  /** At most four bcrypt jobs run, counting those whose caller is long gone. */
  lemma RunningJobsAreBounded(events: seq<Event>)
    ensures |RunningJobs(Run(IDLE, events))| <= PASSWORD_WORKER_LIMIT
  {
    RunKeepsInvariant(IDLE, events);
    var p := Run(IDLE, events);
    SubsetBound(RunningJobs(p), p.holders);
  }

  /** A request cancelled while waiting never held a token; every ended admission has given
      its token back exactly once, and every other admission still holds it. */
  lemma TokensAreConserved(events: seq<Event>, id: Id)
    requires id in Run(IDLE, events).callers
    ensures var p := Run(IDLE, events);
            var c := p.callers[id];
            && (c.phase.Waiting? || c.phase.Cancelled? ==> c.taken == 0 && c.returned == 0)
            && (c.phase.SpawnFailed? || c.phase.Finished? ==> c.taken == 1 && c.returned == 1)
            && (c.taken == c.returned + 1 <==> id in p.holders)
            && (c.taken == c.returned <==> id !in p.holders)
  {
    RunKeepsInvariant(IDLE, events);
  }

  /** When no admitted work is left, every token is back and nobody is left waiting. */
  lemma AllTokensReturn(events: seq<Event>)
    requires var p := Run(IDLE, events); forall id | id in p.callers :: !HoldsToken(p.callers[id])
    ensures Run(IDLE, events).holders == {} && Run(IDLE, events).queue == []
  {
    RunKeepsInvariant(IDLE, events);
  }

  lemma {:induction false} RunConcat(p: Pool, a: seq<Event>, b: seq<Event>)
    ensures Run(p, a + b) == Run(Run(p, a), b)
    decreases |a|
  {
    if a == [] {
      assert a + b == b;
    } else {
      assert (a + b)[0] == a[0] && (a + b)[1..] == a[1..] + b;
      RunConcat(Step(p, a[0]), a[1..], b);
    }
  }

  // ---------- first come, first served ----------

  /** Both wait, a in front of b. */
  ghost predicate InFront(p: Pool, a: Id, b: Id) {
    exists i, j | 0 <= i < j < |p.queue| :: p.queue[i] == a && p.queue[j] == b
  }

  /** As long as a waits, b waits behind it or has given up. */
  ghost predicate NotOvertaken(p: Pool, a: Id, b: Id) {
    && a in p.callers && b in p.callers
    && (In(p, a, Waiting) ==> InFront(p, a, b) || In(p, b, Cancelled))
  }

  lemma {:induction false} WithoutKeepsOrder(queue: seq<Id>, id: Id, i: nat, j: nat)
    requires i < j < |queue| && queue[i] != id && queue[j] != id
    ensures exists x, y | 0 <= x < y < |Without(queue, id)| ::
              Without(queue, id)[x] == queue[i] && Without(queue, id)[y] == queue[j]
  {
    var rest := queue[1..];
    if i > 0 {
      WithoutKeepsOrder(rest, id, i - 1, j - 1);
      var x, y :| 0 <= x < y < |Without(rest, id)|
                  && Without(rest, id)[x] == queue[i] && Without(rest, id)[y] == queue[j];
      if queue[0] != id {
        assert Without(queue, id)[x + 1] == queue[i] && Without(queue, id)[y + 1] == queue[j];
      } else {
        assert Without(queue, id) == Without(rest, id);
      }
    } else {
      WithoutKeeps(rest, id, j - 1);
      var y :| 0 <= y < |Without(rest, id)| && Without(rest, id)[y] == queue[j];
      assert Without(queue, id)[0] == queue[i] && Without(queue, id)[y + 1] == queue[j];
    }
  }

  lemma {:induction false} WithoutKeeps(queue: seq<Id>, id: Id, j: nat)
    requires j < |queue| && queue[j] != id
    ensures exists y | 0 <= y < |Without(queue, id)| :: Without(queue, id)[y] == queue[j]
  {
    if j == 0 {
      assert Without(queue, id)[0] == queue[j];
    } else {
      WithoutKeeps(queue[1..], id, j - 1);
      var y :| 0 <= y < |Without(queue[1..], id)| && Without(queue[1..], id)[y] == queue[j];
      assert Without(queue, id)[if queue[0] == id then y else y + 1] == queue[j];
    }
  }

  /** Handing on a token serves the head of the queue. */
  lemma NotifyKeepsOrder(p: Pool, a: Id, b: Id)
    requires Consistent(p) && NotOvertaken(p, a, b)
    ensures NotOvertaken(Notify(p), a, b)
  {
    var next := Notify(p);
    if next != p && In(next, a, Waiting) {
      assert next.queue == p.queue[1..];
      if InFront(p, a, b) {
        var i, j :| 0 <= i < j < |p.queue| && p.queue[i] == a && p.queue[j] == b;
        assert i > 0;
        assert next.queue[i - 1] == a && next.queue[j - 1] == b;
      } else {
        assert In(p, b, Cancelled) && b !in p.queue;
        assert p.queue[0] in p.queue;
      }
    }
  }

  lemma StepKeepsOrder(p: Pool, e: Event, a: Id, b: Id)
    requires Invariant(p) && NotOvertaken(p, a, b)
    ensures NotOvertaken(Step(p, e), a, b)
  {
    match e
    case Arrive(id) =>
      if id !in p.callers {
        var joined := Pool(p.callers[id := Caller(Waiting, 0, 0)], p.queue + [id], p.holders);
        ArrivalStaysConsistent(p, id);
        if InFront(p, a, b) {
          var i, j :| 0 <= i < j < |p.queue| && p.queue[i] == a && p.queue[j] == b;
          assert joined.queue[i] == a && joined.queue[j] == b;
        }
        NotifyKeepsOrder(joined, a, b);
      }
    case CancelWaiting(id) =>
      if In(p, id, Waiting) && InFront(p, a, b) && id != a && id != b {
        var i, j :| 0 <= i < j < |p.queue| && p.queue[i] == a && p.queue[j] == b;
        WithoutKeepsOrder(p.queue, id, i, j);
      }
    case FailToSpawn(id) =>
      if In(p, id, Admitted) { ReleaseKeepsOrder(p, id, SpawnFailed, a, b); }
    case Finish(id) =>
      if id in p.callers && p.callers[id].phase.Running? { ReleaseKeepsOrder(p, id, Finished, a, b); }
    case _ =>
      assert Step(p, e).queue == p.queue;
  }

  lemma ReleaseKeepsOrder(p: Pool, id: Id, phase: Phase, a: Id, b: Id)
    requires Invariant(p) && NotOvertaken(p, a, b) && id in p.callers && HoldsToken(p.callers[id])
    requires phase.SpawnFailed? || phase.Finished?
    ensures NotOvertaken(Release(p, id, phase), a, b)
  {
    GiveBackStaysConsistent(p, id, phase);
    var freed := GiveBack(p, id, phase);
    assert freed.queue == p.queue;
    assert !In(p, id, Waiting) && !In(p, id, Cancelled);
    NotifyKeepsOrder(freed, a, b);
  }

  /** Nobody is overtaken: over every run, a request that waits behind another gets no token while that other
      one still waits. */
  lemma {:induction false} NobodyIsOvertaken(p: Pool, events: seq<Event>, a: Id, b: Id)
    requires Invariant(p) && NotOvertaken(p, a, b)
    ensures var end := Run(p, events);
            && NotOvertaken(end, a, b)
            && (In(end, a, Waiting) ==> b in end.callers && end.callers[b].taken == 0)
    decreases |events|
  {
    if events == [] {
      assert forall i | 0 <= i < |p.queue| :: p.queue[i] in p.queue;
      assert In(p, a, Waiting) ==> Balanced(p.callers[b]) && (In(p, b, Waiting) || In(p, b, Cancelled));
    } else {
      StepKeepsInvariant(p, events[0]);
      StepKeepsOrder(p, events[0], a, b);
      hide Invariant, Step, NotOvertaken;
      NobodyIsOvertaken(Step(p, events[0]), events[1..], a, b);
    }
  }

  /** A request that comes while fewer than four hold tokens is admitted at once; any other joins the end of the
      queue. */
  lemma ArrivalIsServed(p: Pool, id: Id)
    requires Invariant(p) && id !in p.callers
    ensures var q := Step(p, Arrive(id));
            if |p.holders| < 4 then In(q, id, Admitted) && q.holders == p.holders + {id} && q.queue == p.queue == []
            else In(q, id, Waiting) && q.holders == p.holders && q.queue == p.queue + [id]
  {
    assert [id][0] == id && [id][1..] == [];
    if p.queue == [] { assert p.queue + [id] == [id]; }
  }

  /** A cancelled caller: while it waits it leaves the queue for good; once its job runs the job goes on under the
      same token, which comes back when it ends. */
  lemma CancelledCallers(p: Pool, id: Id)
    requires Invariant(p)
    ensures In(p, id, Waiting) ==>
              var q := Step(p, CancelWaiting(id));
              && In(q, id, Cancelled) && id !in q.queue && q.holders == p.holders
              && forall x | x != id :: x in q.queue <==> x in p.queue
    ensures In(p, id, Running(false)) ==>
              var q := Step(p, CancelCaller(id));
              && In(q, id, Running(true)) && q.holders == p.holders && q.queue == p.queue
              && In(Step(q, Finish(id)), id, Finished) && id !in Step(q, Finish(id)).holders
  {
    WithoutRemovesOne(p.queue, id);
    if In(p, id, Running(false)) {
      var q := Step(p, CancelCaller(id));
      StepKeepsInvariant(p, CancelCaller(id));
      assert Invariant(q) && q.callers[id].phase.Running?;
      OneJobEnds(q, id);
      StepKeepsInvariant(q, Finish(id));
    }
  }

  // ---------- progress ----------

  predicate Ended(p: Pool, id: Id) { In(p, id, Finished) }

  /** The request is waiting, admitted or running: it still wants its result. */
  predicate Pending(p: Pool, id: Id) {
    id in p.callers && (p.callers[id].phase.Waiting? || HoldsToken(p.callers[id]))
  }

  /** Ending one running job finishes it and changes nobody else except by admitting a waiter. */
  lemma OneJobEnds(p: Pool, id: Id)
    requires Invariant(p) && id in p.callers && p.callers[id].phase.Running?
    ensures var q := Step(p, Finish(id));
            && Invariant(q) && Ended(q, id)
            && |q.queue| + |q.holders| == |p.queue| + |p.holders| - 1
            && forall x | x != id && Pending(p, x) :: Pending(q, x)
  {
    StepKeepsInvariant(p, Finish(id));
    var freed := GiveBack(p, id, Finished);
    assert |freed.holders| == |p.holders| - 1;
    if p.queue != [] {
      var head := p.queue[0];
      assert head in p.queue;
      assert |freed.holders + {head}| == |freed.holders| + 1;
    }
  }

  lemma WorkerStarts(p: Pool, id: Id)
    requires Invariant(p) && In(p, id, Admitted)
    ensures var q := Step(p, Spawn(id));
            && Invariant(q) && In(q, id, Running(false)) && q.queue == p.queue && q.holders == p.holders
            && forall x | Pending(p, x) :: Pending(q, x)
  {
    StepKeepsInvariant(p, Spawn(id));
  }

  lemma EndedStepStaysEnded(p: Pool, e: Event, id: Id)
    requires Invariant(p) && Ended(p, id)
    ensures Ended(Step(p, e), id)
  {
    assert id !in p.queue;
    assert forall i | 0 <= i < |p.queue| :: p.queue[i] != id;
    hide Invariant, Consistent, Without;
  }

  lemma {:induction false} EndedStaysEnded(p: Pool, events: seq<Event>, id: Id)
    requires Invariant(p) && Ended(p, id)
    ensures Ended(Run(p, events), id)
    decreases |events|
  {
    hide Invariant, Step, Ended;
    if events != [] {
      StepKeepsInvariant(p, events[0]);
      EndedStepStaysEnded(p, events[0], id);
      EndedStaysEnded(Step(p, events[0]), events[1..], id);
    }
  }

  /** No request is stranded: from every reachable state the admitted work can end in such an
      order that every token returns and every pending request finishes. */
  lemma {:induction false} PendingWorkCanFinish(p: Pool) returns (events: seq<Event>)
    requires Invariant(p)
    ensures var q := Run(p, events);
            && q.holders == {} && q.queue == []
            && forall id | Pending(p, id) :: Ended(q, id)
    decreases |p.queue| + |p.holders|
  {
    if p.holders == {} {
      assert p.queue == [];
      assert forall id | Pending(p, id) :: id in p.queue || id in p.holders;
      events := [];
    } else {
      var id :| id in p.holders;
      var started, first := p, [Finish(id)];
      if In(p, id, Admitted) {
        WorkerStarts(p, id);
        started, first := Step(p, Spawn(id)), [Spawn(id), Finish(id)];
        assert first[1..] == [Finish(id)];
      }
      OneJobEnds(started, id);
      var middle := Step(started, Finish(id));
      assert Run(started, [Finish(id)]) == middle by { assert [Finish(id)][1..] == []; }
      assert Run(p, first) == middle;
      var rest := PendingWorkCanFinish(middle);
      events := first + rest;
      RunConcat(p, first, rest);
      EndedStaysEnded(middle, rest, id);
    }
  }
}
