/** Admission of public market-data reads: selected GETs take a permit without waiting, keep it
    while the application runs, and give it back however the request ends. */
module ReadAdmission {

  type Id = nat

  // ---------- which requests are selected ----------

  const PUBLIC_MARKET_READ_PATHS: set<string> := {
    "/availability", "/benchmarks", "/catalog/products", "/catalog/delivery-points",
    "/curves/forward", "/curves/forward/table", "/curves/forward/slice", "/curves/forward/board",
    "/curves/forward/export", "/demand", "/listings", "/orderbook", "/orderbook/snapshot",
    "/orderbook/bids", "/orderbook/asks", "/orderbook/with-ci", "/orderbook/aggregated",
    "/orderbook/product-counts", "/orderbook/map-summary", "/orderbook/map-summary/compact",
    "/orderbook/products", "/orderbook/regions", "/orderbook/fuel-types", "/ports", "/prices",
    "/prices/reference", "/prices/reference/export", "/producers", "/trade-tape"
  }

  const PORT_PREFIX := "/ports/"

  function TrimTrailingSlashes(prefix: string): (r: string)
    ensures r <= prefix
    ensures r != "" ==> r[|r| - 1] != '/'
    ensures forall i | |r| <= i < |prefix| :: prefix[i] == '/'
  {
    if prefix != "" && prefix[|prefix| - 1] == '/' then TrimTrailingSlashes(prefix[..|prefix| - 1]) else prefix
  }

  predicate IsSelected(listed: set<string>, prefix: string, path: string) {
    prefix + "/" <= path &&
    var relative := path[|prefix|..];
    || relative in listed
    || (PORT_PREFIX <= relative && var port := relative[|PORT_PREFIX|..]; port != "" && '/' !in port)
  }

  predicate IsSelectedPath(apiPrefix: string, path: string) {
    IsSelected(PUBLIC_MARKET_READ_PATHS, TrimTrailingSlashes(apiPrefix), path)
  }

  predicate Absolute(listed: set<string>) { forall p | p in listed :: p != "" && p[0] == '/' }

  predicate IsListed(listed: set<string>, prefix: string, path: string) {
    exists p :: p in listed && path == prefix + p
  }

  predicate IsOnePort(prefix: string, path: string) {
    var base := prefix + PORT_PREFIX;
    base < path && '/' !in path[|base|..]
  }

  /** A path is selected exactly when it is the prefix followed by a listed path, or by one
      non-empty segment under /ports/. */
  lemma SelectionIsExact(listed: set<string>, prefix: string, path: string)
    requires Absolute(listed)
    ensures IsSelected(listed, prefix, path) <==> IsListed(listed, prefix, path) || IsOnePort(prefix, path)
  {
    var base := prefix + PORT_PREFIX;
    if prefix + "/" <= path {
      var relative := path[|prefix|..];
      assert path == prefix + relative;
      if PORT_PREFIX <= relative {
        assert base <= path && path[|base|..] == relative[|PORT_PREFIX|..];
      }
      if base <= path {
        assert relative[..|PORT_PREFIX|] == PORT_PREFIX;
      }
    }
    if IsListed(listed, prefix, path) {
      var p :| p in listed && path == prefix + p;
      assert path[|prefix|..] == p;
      assert p[0] == '/';
      assert path[..|prefix| + 1] == prefix + "/";
    }
    if base <= path {
      assert base[..|prefix| + 1] == prefix + "/";
      assert path[..|prefix| + 1] == prefix + "/";
    }
  }

  lemma ListedPathsAreAbsolute()
    ensures Absolute(PUBLIC_MARKET_READ_PATHS)
  {}

  /** Of the real table: behind the trimmed prefix, exactly a listed path or one port is selected. */
  lemma SelectedPathsAreExact(apiPrefix: string, path: string)
    ensures var prefix := TrimTrailingSlashes(apiPrefix);
            IsSelectedPath(apiPrefix, path)
            <==> IsListed(PUBLIC_MARKET_READ_PATHS, prefix, path) || IsOnePort(prefix, path)
  {
    ListedPathsAreAbsolute();
    SelectionIsExact(PUBLIC_MARKET_READ_PATHS, TrimTrailingSlashes(apiPrefix), path);
    hide IsSelected, IsListed, IsOnePort, Absolute;
  }

  // ---------- every interleaving of requests ----------

  datatype Ending = Returned | Raised | Cancelled

  datatype Phase =
    | Inside                     // awaiting the application
    | Unwinding(how: Ending)     // the application has ended; the finally clause is still to run
    | Gone(how: Ending)
    | Rejected                   // answered 503 without entering

  /** A request, with the number of times a permit was taken and given back on its behalf. */
  datatype Request = Request(selected: bool, phase: Phase, taken: nat, returned: nat)

  /** The limiter only counts its borrowed tokens; it knows nothing of the requests. */
  datatype Server = Server(requests: map<Id, Request>, borrowed: int, connections: set<Id>)

  const EMPTY := Server(map[], 0, {})

  datatype Event =
    | Arrive(id: Id, selected: bool)
    | Checkout(id: Id)               // the request takes its connection from the pool
    | Checkin(id: Id)
    | End(id: Id, how: Ending)       // response sent, exception raised, or task cancelled
    | RunFinally(id: Id)

  datatype Limits = Limits(permits: nat, connections: nat)

  /** Read permits, as main.py derives them from the pool settings. */
  function PoolLimits(poolSize: nat, maxOverflow: nat): Limits {
    var total := poolSize + maxOverflow;
    Limits(if total >= 1 then total - 1 else 0, total)
  }

  function Put(s: Server, id: Id, r: Request): Server { s.(requests := s.requests[id := r]) }

  predicate In(s: Server, id: Id, phase: Phase) { id in s.requests && s.requests[id].phase == phase }

  /** Events that are not possible in a state leave it unchanged. */
  function Step(s: Server, limits: Limits, e: Event): Server {
    match e
    case Arrive(id, selected) =>
      if id in s.requests then s
      else if !selected then Put(s, id, Request(false, Inside, 0, 0))
      else if s.borrowed >= limits.permits then Put(s, id, Request(true, Rejected, 0, 0))
      else Put(s, id, Request(true, Inside, 1, 0)).(borrowed := s.borrowed + 1)
    case Checkout(id) =>
      if In(s, id, Inside) && |s.connections| < limits.connections
      then s.(connections := s.connections + {id}) else s
    case Checkin(id) => s.(connections := s.connections - {id})
    case End(id, how) =>
      if !In(s, id, Inside) then s
      else
        var r := s.requests[id];
        Put(s, id, r.(phase := if r.selected then Unwinding(how) else Gone(how)))
        .(connections := s.connections - {id})
    case RunFinally(id) =>
      if id !in s.requests || !s.requests[id].phase.Unwinding? then s
      else
        var r := s.requests[id];
        Put(s, id, r.(phase := Gone(r.phase.how), returned := r.returned + 1)).(borrowed := s.borrowed - 1)
  }

  function Run(s: Server, limits: Limits, events: seq<Event>): Server
    decreases |events|
  {
    if events == [] then s else Run(Step(s, limits, events[0]), limits, events[1..])
  }

  /** A selected read between its admission and its finally clause. */
  predicate Admitted(r: Request) { r.selected && (r.phase.Inside? || r.phase.Unwinding?) }

  function AdmittedReads(s: Server): set<Id> { set id | id in s.requests && Admitted(s.requests[id]) }

  /** Each phase fixes how often a permit was taken and given back. */
  predicate Balanced(r: Request) {
    match r.phase
    case Inside => r.taken == (if r.selected then 1 else 0) && r.returned == 0
    case Unwinding(_) => r.selected && r.taken == 1 && r.returned == 0
    case Gone(_) => r.taken == r.returned == if r.selected then 1 else 0
    case Rejected => r.selected && r.taken == r.returned == 0
  }

  predicate Invariant(s: Server, limits: Limits) {
    && (forall id | id in s.requests :: Balanced(s.requests[id]))
    && s.borrowed == |AdmittedReads(s)| && s.borrowed <= limits.permits
    && |s.connections| <= limits.connections
    && (forall id | id in s.connections :: In(s, id, Inside))
  }

  lemma RemoveShrinks(a: set<Id>, id: Id)
    ensures |a - {id}| == if id in a then |a| - 1 else |a|
  {
    if id !in a {
      assert a - {id} == a;
    }
  }

  lemma SubsetBound(a: set<Id>, b: set<Id>)
    requires a <= b
    ensures |a| <= |b|
    decreases b
  {
    if a != {} {
      var x :| x in a;
      SubsetBound(a - {x}, b - {x});
    }
  }

  lemma OneMember(was: set<Id>, now: set<Id>, id: Id)
    requires forall x :: x != id ==> (x in now <==> x in was)
    ensures |now| == |was| + (if id in now then 1 else 0) - (if id in was then 1 else 0)
  {
    RemoveShrinks(was, id);
    RemoveShrinks(now, id);
    assert was - {id} == now - {id};
  }

  /** Writing one request moves the number of admitted reads by that request only. */
  lemma PutMovesOne(s: Server, id: Id, r: Request, next: Server)
    requires next.requests == s.requests[id := r]
    ensures |AdmittedReads(next)| == |AdmittedReads(s)| + (if Admitted(r) then 1 else 0)
                                     - (if id in s.requests && Admitted(s.requests[id]) then 1 else 0)
  {
    var was, now := AdmittedReads(s), AdmittedReads(next);
    assert id in was <==> id in s.requests && Admitted(s.requests[id]);
    assert id in now <==> Admitted(r);
    assert forall x :: x != id ==> (x in now <==> x in was);
    hide AdmittedReads, Admitted;
    OneMember(was, now, id);
  }

  lemma PutKeepsInvariant(s: Server, limits: Limits, id: Id, r: Request, borrowed: int, connections: set<Id>)
    requires Invariant(s, limits) && Balanced(r) && borrowed <= limits.permits
    requires borrowed == s.borrowed + (if Admitted(r) then 1 else 0)
                         - (if id in s.requests && Admitted(s.requests[id]) then 1 else 0)
    requires connections <= s.connections && (id in connections ==> r.phase.Inside?)
    ensures Invariant(Server(s.requests[id := r], borrowed, connections), limits)
  {
    PutMovesOne(s, id, r, Server(s.requests[id := r], borrowed, connections));
    SubsetBound(connections, s.connections);
    hide AdmittedReads, Admitted, Balanced;
  }

  lemma ConnectionsKeepInvariant(s: Server, limits: Limits, connections: set<Id>)
    requires Invariant(s, limits) && |connections| <= limits.connections
    requires forall id | id in connections :: In(s, id, Inside)
    ensures Invariant(s.(connections := connections), limits)
  {
    assert AdmittedReads(s.(connections := connections)) == AdmittedReads(s);
  }

  lemma StepKeepsInvariant(s: Server, limits: Limits, e: Event)
    requires Invariant(s, limits)
    ensures Invariant(Step(s, limits, e), limits)
  {
    assert e.id in s.requests ==> Balanced(s.requests[e.id]);
    assert |s.connections| <= limits.connections && forall id | id in s.connections :: In(s, id, Inside);
    match e
    case Checkout(id) =>
      if In(s, id, Inside) && |s.connections| < limits.connections {
        ConnectionsKeepInvariant(s, limits, s.connections + {id});
      }
    case Checkin(id) =>
      RemoveShrinks(s.connections, id);
      ConnectionsKeepInvariant(s, limits, s.connections - {id});
    case _ =>
      var next := Step(s, limits, e);
      if next != s {
        hide Invariant;
        PutKeepsInvariant(s, limits, e.id, next.requests[e.id], next.borrowed, next.connections);
      }
  }

  lemma {:induction false} RunKeepsInvariant(s: Server, limits: Limits, events: seq<Event>)
    requires Invariant(s, limits)
    ensures Invariant(Run(s, limits, events), limits)
    decreases |events|
  {
    hide Invariant, Step;
    if events != [] {
      StepKeepsInvariant(s, limits, events[0]);
      RunKeepsInvariant(Step(s, limits, events[0]), limits, events[1..]);
    }
  }

  lemma EmptyServer(limits: Limits)
    ensures Invariant(EMPTY, limits)
  {
    assert AdmittedReads(EMPTY) == {};
  }

  /** However requests arrive, fail and are cancelled, the limiter's count is exactly the number of admitted
      reads; a permit is taken once for each admission and given back exactly once when its finally clause
      has run, whatever ended the request, and never for a refused or unselected one. */
  lemma PermitsAreConserved(limits: Limits, events: seq<Event>, id: Id)
    ensures var s := Run(EMPTY, limits, events);
            && s.borrowed == |AdmittedReads(s)| && 0 <= s.borrowed <= limits.permits
            && (id in s.requests ==>
                  var r := s.requests[id];
                  && (r.taken == 1 <==> r.selected && !r.phase.Rejected?)
                  && (r.returned == 1 <==> r.selected && r.phase.Gone?)
                  && r.returned <= r.taken <= 1)
  {
    EmptyServer(limits);
    RunKeepsInvariant(EMPTY, limits, events);
    var s := Run(EMPTY, limits, events);
    hide Run, AdmittedReads;
    assert id in s.requests ==> Balanced(s.requests[id]);
  }

  /** A selected read is refused exactly when as many reads as there are permits are inside or unwinding. */
  lemma RefusedExactlyWhenFull(limits: Limits, events: seq<Event>, id: Id)
    requires id !in Run(EMPTY, limits, events).requests
    ensures var s := Run(EMPTY, limits, events);
            var next := Step(s, limits, Arrive(id, true));
            next.requests[id].phase.Rejected? <==> |AdmittedReads(s)| == limits.permits
  {
    EmptyServer(limits);
    RunKeepsInvariant(EMPTY, limits, events);
    hide Run;
  }

  /** Selected reads alone leave at least one connection of the pool to other requests. */
  lemma ReadsLeaveRoomForWrites(poolSize: nat, maxOverflow: nat, events: seq<Event>)
    ensures var limits := PoolLimits(poolSize, maxOverflow);
            var s := Run(EMPTY, limits, events);
            var held := s.connections * AdmittedReads(s);
            && |held| <= limits.permits == (if poolSize + maxOverflow == 0 then 0 else limits.connections - 1)
            && (poolSize + maxOverflow > 0 ==> |held| < limits.connections)
            && (poolSize + maxOverflow > 0 && s.connections <= AdmittedReads(s) ==> |s.connections| < limits.connections)
  {
    var limits := PoolLimits(poolSize, maxOverflow);
    EmptyServer(limits);
    RunKeepsInvariant(EMPTY, limits, events);
    var s := Run(EMPTY, limits, events);
    SubsetBound(s.connections * AdmittedReads(s), AdmittedReads(s));
    if s.connections <= AdmittedReads(s) {
      SubsetBound(s.connections, AdmittedReads(s));
    }
  }

  /** Every other request always enters, and as long as only admitted reads hold connections it gets one. */
  lemma WritesAreServed(poolSize: nat, maxOverflow: nat, events: seq<Event>, id: Id)
    requires poolSize + maxOverflow > 0
    requires var s := Run(EMPTY, PoolLimits(poolSize, maxOverflow), events);
             id !in s.requests && s.connections <= AdmittedReads(s)
    ensures var limits := PoolLimits(poolSize, maxOverflow);
            var s := Run(EMPTY, limits, events);
            var entered := Step(s, limits, Arrive(id, false));
            var served := Step(entered, limits, Checkout(id));
            && In(entered, id, Inside) && entered.borrowed == s.borrowed
            && In(served, id, Inside) && served.connections == s.connections + {id}
  {
    ReadsLeaveRoomForWrites(poolSize, maxOverflow, events);
  }

  /** A selected read below the capacity enters and, when the pool has a connection left, gets it; a refused one
      never does. */
  lemma ReadsAreServed(limits: Limits, events: seq<Event>, id: Id)
    requires id !in Run(EMPTY, limits, events).requests
    ensures var s := Run(EMPTY, limits, events);
            var arrived := Step(s, limits, Arrive(id, true));
            var served := Step(arrived, limits, Checkout(id));
            && (|AdmittedReads(s)| < limits.permits ==>
                  && In(arrived, id, Inside) && arrived.borrowed == s.borrowed + 1
                  && (id in served.connections <==> |s.connections| < limits.connections))
            && (|AdmittedReads(s)| == limits.permits ==> served == arrived && arrived.borrowed == s.borrowed)
  {
    EmptyServer(limits);
    RunKeepsInvariant(EMPTY, limits, events);
    hide Run;
    var s := Run(EMPTY, limits, events);
    assert id in s.connections ==> In(s, id, Inside);
  }

  /** Ending every admitted read, in whatever way, gives every permit back: from every reachable state there is
      such a run, and it touches nobody else. */
  lemma {:induction false} AllPermitsReturn(s: Server, limits: Limits, how: Ending) returns (events: seq<Event>)
    requires Invariant(s, limits)
    ensures var end := Run(s, limits, events);
            && end.borrowed == 0 && AdmittedReads(end) == {}
            && (forall id | id in AdmittedReads(s) :: id in end.requests && end.requests[id].returned == 1)
            && (forall id | id in s.requests && id !in AdmittedReads(s) ::
                  id in end.requests && end.requests[id] == s.requests[id])
    decreases |AdmittedReads(s)|
  {
    if AdmittedReads(s) == {} {
      events := [];
    } else {
      var id :| id in AdmittedReads(s);
      var ended := Step(s, limits, End(id, how));
      var next := Step(ended, limits, RunFinally(id));
      OneReadLeaves(s, limits, id, how);
      hide AdmittedReads, Step, Invariant;
      var rest := AllPermitsReturn(next, limits, how);
      events := [End(id, how)] + ([RunFinally(id)] + rest);
      assert events[1..] == [RunFinally(id)] + rest && ([RunFinally(id)] + rest)[1..] == rest;
      assert Run(s, limits, events) == Run(ended, limits, [RunFinally(id)] + rest) == Run(next, limits, rest);
    }
  }

  lemma OneReadLeaves(s: Server, limits: Limits, id: Id, how: Ending)
    requires Invariant(s, limits) && id in AdmittedReads(s)
    ensures var next := Step(Step(s, limits, End(id, how)), limits, RunFinally(id));
            && Invariant(next, limits)
            && AdmittedReads(next) == AdmittedReads(s) - {id} && |AdmittedReads(next)| < |AdmittedReads(s)|
            && id in next.requests && next.requests[id].returned == 1
            && (forall x | x in s.requests && x != id :: x in next.requests && next.requests[x] == s.requests[x])
  {
    var ended := Step(s, limits, End(id, how));
    StepKeepsInvariant(s, limits, End(id, how));
    StepKeepsInvariant(ended, limits, RunFinally(id));
    var next := Step(ended, limits, RunFinally(id));
    assert Balanced(s.requests[id]);
    assert AdmittedReads(next) == AdmittedReads(s) - {id};
    RemoveShrinks(AdmittedReads(s), id);
  }
}
