/** Acceptance priority: existing orders are ranked by age once, then a sequence continues the ranks.
    Orders of one market slice are admitted under that slice's transaction lock. */
module AcceptancePriority {
  import opened Sql

  type Id = nat
  type Slice = nat
  type TxId = nat

  // ---------- the backfill ----------

  datatype Existing = Existing(id: Id, slice: Slice, createdAt: Option<int>)

  /** ORDER BY created_at, id: a missing time sorts last. */
  predicate Before(a: Existing, b: Existing) {
    match (a.createdAt, b.createdAt)
    case (Some(x), Some(y)) => x < y || (x == y && a.id < b.id)
    case (Some(_), None) => true
    case (None, Some(_)) => false
    case (None, None) => a.id < b.id
  }

  predicate DistinctIds(rows: seq<Existing>) {
    forall i, j | 0 <= i < j < |rows| :: rows[i].id != rows[j].id
  }

  function Earlier(rows: seq<Existing>, r: Existing): nat {
    if rows == [] then 0
    else Earlier(rows[..|rows| - 1], r) + if Before(rows[|rows| - 1], r) then 1 else 0
  }

  /** row_number() over that order. */
  function RowNumber(rows: seq<Existing>, r: Existing): nat { Earlier(rows, r) + 1 }

  lemma BeforeIsOrder(a: Existing, b: Existing, c: Existing)
    requires Before(a, b)
    ensures Before(c, a) ==> Before(c, b)
    ensures !Before(b, a) && !Before(b, b)
  {}

  lemma {:induction false} EarlierGrows(rows: seq<Existing>, a: Existing, b: Existing)
    requires Before(a, b)
    ensures Earlier(rows, a) <= Earlier(rows, b)
    ensures a in rows ==> Earlier(rows, a) < Earlier(rows, b)
  {
    if rows != [] {
      var before, last := rows[..|rows| - 1], rows[|rows| - 1];
      BeforeIsOrder(a, b, last);
      EarlierGrows(before, a, b);
      assert a in rows ==> a in before || a == last;
      assert !Before(a, a) by { BeforeIsOrder(a, b, a); }
      hide Before;
    }
  }

  lemma {:induction false} EarlierIsBounded(rows: seq<Existing>, r: Existing)
    ensures Earlier(rows, r) <= |rows|
    ensures r in rows ==> Earlier(rows, r) < |rows|
  {
    if rows != [] {
      EarlierIsBounded(rows[..|rows| - 1], r);
      assert rows == rows[..|rows| - 1] + [rows[|rows| - 1]];
    }
  }

  /** Ranks follow age, and no two orders share one. */
  lemma RanksFollowAge(rows: seq<Existing>, i: nat, j: nat)
    requires DistinctIds(rows) && i < |rows| && j < |rows|
    ensures RowNumber(rows, rows[i]) < RowNumber(rows, rows[j]) <==> Before(rows[i], rows[j])
    ensures RowNumber(rows, rows[i]) == RowNumber(rows, rows[j]) <==> i == j
    ensures 1 <= RowNumber(rows, rows[i]) <= |rows|
  {
    var a, b := rows[i], rows[j];
    EarlierIsBounded(rows, a);
    assert i != j ==> a.id != b.id;
    if Before(a, b) {
      EarlierGrows(rows, a, b);
    } else if i != j {
      assert Before(b, a);
      EarlierGrows(rows, b, a);
    }
  }

  lemma {:induction false} FullRange(s: set<nat>, n: nat)
    requires forall x | x in s :: 1 <= x <= n
    requires |s| == n
    ensures forall x | 1 <= x <= n :: x in s
  {
    if n > 0 {
      if n in s {
        FullRange(s - {n}, n - 1);
      } else {
        Fewer(s, n - 1);
      }
    }
  }

  lemma {:induction false} Fewer(s: set<nat>, n: nat)
    requires forall x | x in s :: 1 <= x <= n
    ensures |s| <= n
  {
    if n == 0 {
      if x :| x in s { assert false; }
      assert s == {};
    } else {
      Fewer(s - {n}, n - 1);
      assert s == s - {n} || s == s - {n} + {n};
    }
  }

  function Ranks(rows: seq<Existing>, k: nat): (s: set<nat>)
    requires k <= |rows|
  {
    set i | 0 <= i < k :: RowNumber(rows, rows[i])
  }

  lemma {:induction false} RanksCount(rows: seq<Existing>, k: nat)
    requires DistinctIds(rows) && k <= |rows|
    ensures |Ranks(rows, k)| == k
  {
    hide RowNumber, Before, DistinctIds;
    if k > 0 {
      RanksCount(rows, k - 1);
      var r := RowNumber(rows, rows[k - 1]);
      forall i | 0 <= i < k - 1 ensures RowNumber(rows, rows[i]) != r { RanksFollowAge(rows, i, k - 1); }
      assert r !in Ranks(rows, k - 1);
      assert Ranks(rows, k) == Ranks(rows, k - 1) + {r};
    } else {
      assert Ranks(rows, k) == {};
    }
  }

  /** Every number from 1 to n is the rank of some order. */
  lemma EveryRankIsTaken(rows: seq<Existing>, rank: nat)
    requires DistinctIds(rows) && 1 <= rank <= |rows|
    ensures exists i | 0 <= i < |rows| :: RowNumber(rows, rows[i]) == rank
  {
    forall i | 0 <= i < |rows| ensures 1 <= RowNumber(rows, rows[i]) <= |rows| { RanksFollowAge(rows, i, i); }
    RanksCount(rows, |rows|);
    FullRange(Ranks(rows, |rows|), |rows|);
    assert rank in Ranks(rows, |rows|);
  }

  // ---------- the sequence ----------

  datatype Sequence = Sequence(last: nat, called: bool)

  function Nextval(s: Sequence): (nat, Sequence) {
    var v := if s.called then s.last + 1 else s.last;
    (v, Sequence(v, true))
  }

  /** The greatest number already given out. */
  function Drawn(s: Sequence): int { if s.called then s.last else s.last - 1 }

  class OrderTable {
    const rows: seq<Existing>
    var ordinals: seq<Option<nat>>
    var sequence: Option<Sequence>

    constructor (rows: seq<Existing>)
      requires DistinctIds(rows)
      ensures this.rows == rows && ordinals == [] && sequence == None
    {
      this.rows, ordinals, sequence := rows, [], None;
    }

    /** The upgrade: refused at once while anybody else holds the table, otherwise ranks first, then the
        sequence positioned so that its next value follows them. */
    method Upgrade(busy: bool) returns (done: bool)
      requires DistinctIds(rows) && sequence == None
      modifies this
      ensures done == !busy
      ensures busy ==> ordinals == old(ordinals) && sequence == None
      ensures done ==> |ordinals| == |rows|
      ensures done ==> forall i | 0 <= i < |rows| :: ordinals[i] == Some(RowNumber(rows, rows[i]))
      ensures done ==> sequence.Some? && Drawn(sequence.value) == |rows| && Nextval(sequence.value).0 == |rows| + 1
    {
      if busy { return false; }
      ordinals := [];
      while |ordinals| < |rows|
        invariant |ordinals| <= |rows|
        invariant forall k | 0 <= k < |ordinals| :: ordinals[k] == Some(RowNumber(rows, rows[k]))
      {
        ordinals := ordinals + [Some(RowNumber(rows, rows[|ordinals|]))];
      }
      var maximum: Option<nat> := None;
      var i := 0;
      while i < |rows|
        invariant 0 <= i <= |rows|
        invariant forall k | 0 <= k < i :: maximum.Some? && ordinals[k].value <= maximum.value
        invariant maximum.Some? ==> exists k | 0 <= k < i :: ordinals[k] == maximum
      {
        if maximum.None? || maximum.value < ordinals[i].value { maximum := ordinals[i]; }
        i := i + 1;
      }
      if |rows| > 0 {
        EveryRankIsTaken(rows, |rows|);
        forall k | 0 <= k < |rows| ensures ordinals[k].value <= |rows| { RanksFollowAge(rows, k, k); }
        assert maximum == Some(|rows|);
      }
      if maximum.None? { sequence := Some(Sequence(1, false)); }
      else { sequence := Some(Sequence(maximum.value, true)); }
      return true;
    }
  }

  // ---------- admissions afterwards ----------

  datatype Row = Row(slice: Slice, ordinal: nat)

  /** A transaction in flight: the slice locks it holds until it ends, and what it will write. */
  datatype Tx = Tx(locks: set<Slice>, writes: map<Id, Row>)

  datatype Market = Market(sequence: Sequence, book: map<Id, Row>, txs: map<TxId, Tx>)

  datatype Event =
    | Lock(tx: TxId, slice: Slice)
    | Insert(tx: TxId, order: Id, slice: Slice)
    | Requeue(tx: TxId, order: Id)
    | Commit(tx: TxId)
    | Abort(tx: TxId)

  predicate LockFree(m: Market, tx: TxId, slice: Slice) {
    forall other | other in m.txs :: other != tx ==> slice !in m.txs[other].locks
  }

  predicate Unused(m: Market, order: Id) {
    order !in m.book && forall t | t in m.txs :: order !in m.txs[t].writes
  }

  function Current(m: Market, tx: TxId): Tx { if tx in m.txs then m.txs[tx] else Tx({}, map[]) }

  /** A draw moves the sequence for good; the row it is for appears only on commit. */
  function Draw(m: Market, tx: TxId, order: Id, slice: Slice): Market {
    var (v, s) := Nextval(m.sequence);
    var t := Current(m, tx);
    m.(sequence := s, txs := m.txs[tx := t.(writes := t.writes[order := Row(slice, v)])])
  }

  /** Waiting for a lock, reusing an identifier and drawing without the slice lock are not steps. */
  function Step(m: Market, event: Event): Market {
    match event
    case Lock(tx, slice) =>
      if !LockFree(m, tx, slice) then m
      else m.(txs := m.txs[tx := Current(m, tx).(locks := Current(m, tx).locks + {slice})])
    case Insert(tx, order, slice) =>
      if slice in Current(m, tx).locks && Unused(m, order) then Draw(m, tx, order, slice) else m
    case Requeue(tx, order) =>
      if order in m.book && m.book[order].slice in Current(m, tx).locks
      then Draw(m, tx, order, m.book[order].slice) else m
    case Commit(tx) => if tx in m.txs then m.(book := m.book + m.txs[tx].writes, txs := m.txs - {tx}) else m
    case Abort(tx) => m.(txs := m.txs - {tx})
  }

  function Run(m: Market, events: seq<Event>): Market
    decreases |events|
  {
    if events == [] then m else Run(Step(m, events[0]), events[1..])
  }

  /** Ordinals are distinct and have all been drawn. */
  predicate Ranked(rows: map<Id, Row>, high: int) {
    && (forall o | o in rows :: 1 <= rows[o].ordinal <= high)
    && (forall o, p | o in rows && p in rows :: rows[o].ordinal == rows[p].ordinal ==> o == p)
  }

  predicate BookOk(m: Market) {
    Ranked(m.book, Drawn(m.sequence))
  }

  /** A pending row holds its slice's lock and ranks after everything already in that slice's queue. */
  predicate WriteOk(m: Market, t: TxId, o: Id)
    requires t in m.txs && o in m.txs[t].writes
  {
    var row := m.txs[t].writes[o];
    && row.slice in m.txs[t].locks
    && 1 <= row.ordinal <= Drawn(m.sequence)
    && (forall p | p in m.book :: m.book[p].slice == row.slice ==> m.book[p].ordinal < row.ordinal)
    && (forall p | p in m.book :: m.book[p].ordinal != row.ordinal)
    && (o in m.book ==> m.book[o].slice == row.slice)
  }

  predicate WritesOk(m: Market) {
    forall t, o | t in m.txs && o in m.txs[t].writes :: WriteOk(m, t, o)
  }

  predicate WritesDistinct(m: Market) {
    forall t, o, u, p | t in m.txs && o in m.txs[t].writes && u in m.txs && p in m.txs[u].writes ::
      (m.txs[t].writes[o].ordinal == m.txs[u].writes[p].ordinal ==> t == u && o == p)
      && (o == p ==> t == u)
  }

  predicate LocksExclusive(m: Market) {
    forall t, u | t in m.txs && u in m.txs :: t != u ==> m.txs[t].locks !! m.txs[u].locks
  }

  predicate Invariant(m: Market) {
    0 <= Drawn(m.sequence) && BookOk(m) && WritesOk(m) && WritesDistinct(m) && LocksExclusive(m)
  }

  lemma LockKeepsWrites(m: Market, tx: TxId, slice: Slice)
    requires WritesOk(m) && WritesDistinct(m) && LockFree(m, tx, slice)
    ensures WritesOk(Step(m, Lock(tx, slice))) && WritesDistinct(Step(m, Lock(tx, slice)))
  {
    var next := Step(m, Lock(tx, slice));
    assert forall t | t in next.txs :: next.txs[t].writes == Current(m, t).writes;
    assert WritesDistinct(next) by { hide WriteOk, WritesOk, LockFree, Step; }
    hide WritesDistinct, LockFree;
    forall t, o | t in next.txs && o in next.txs[t].writes ensures WriteOk(next, t, o) {
      assert t in m.txs && o in m.txs[t].writes && WriteOk(m, t, o);
    }
  }

  lemma LockKeepsInvariant(m: Market, tx: TxId, slice: Slice)
    requires Invariant(m)
    ensures Invariant(Step(m, Lock(tx, slice)))
  {
    if LockFree(m, tx, slice) {
      LockKeepsWrites(m, tx, slice);
      hide WritesOk, WritesDistinct, WriteOk;
    }
  }

  lemma DrawKeepsWrites(m: Market, tx: TxId, order: Id, slice: Slice)
    requires BookOk(m) && WritesOk(m) && 0 <= Drawn(m.sequence) && slice in Current(m, tx).locks
    requires order in m.book ==> m.book[order].slice == slice
    ensures WritesOk(Draw(m, tx, order, slice))
  {
    var next := Draw(m, tx, order, slice);
    forall t, o | t in next.txs && o in next.txs[t].writes ensures WriteOk(next, t, o) {
      if t != tx || o != order {
        assert t in m.txs && o in m.txs[t].writes && WriteOk(m, t, o);
        assert next.txs[t].writes[o] == m.txs[t].writes[o];
      } else {
        assert next.txs[t].writes[o] == Row(slice, Drawn(m.sequence) + 1);
      }
    }
  }

  /** Everything pending was drawn before. */
  predicate PendingDrawn(m: Market) {
    forall t, o | t in m.txs && o in m.txs[t].writes :: m.txs[t].writes[o].ordinal <= Drawn(m.sequence)
  }

  lemma DrawKeepsDistinct(m: Market, tx: TxId, order: Id, slice: Slice)
    requires WritesDistinct(m) && PendingDrawn(m)
    requires forall t | t in m.txs && t != tx :: order !in m.txs[t].writes
    ensures WritesDistinct(Draw(m, tx, order, slice))
  {
    var next := Draw(m, tx, order, slice);
    forall t, o | t in next.txs && o in next.txs[t].writes
      ensures (t == tx && o == order && next.txs[t].writes[o].ordinal == Drawn(m.sequence) + 1)
           || (t in m.txs && o in m.txs[t].writes && next.txs[t].writes[o] == m.txs[t].writes[o])
    {}
    hide Draw, Nextval;
  }

  lemma DrawKeepsInvariant(m: Market, tx: TxId, order: Id, slice: Slice)
    requires Invariant(m) && slice in Current(m, tx).locks
    requires order in m.book ==> m.book[order].slice == slice
    requires forall t | t in m.txs && t != tx :: order !in m.txs[t].writes
    ensures Invariant(Draw(m, tx, order, slice))
  {
    DrawKeepsWrites(m, tx, order, slice);
    forall t, o | t in m.txs && o in m.txs[t].writes ensures m.txs[t].writes[o].ordinal <= Drawn(m.sequence) {
      assert WriteOk(m, t, o);
    }
    DrawKeepsDistinct(m, tx, order, slice);
    hide WritesOk, WritesDistinct, WriteOk;
  }

  lemma MergeRanked(book: map<Id, Row>, writes: map<Id, Row>, high: int)
    requires Ranked(book, high) && Ranked(writes, high)
    requires forall o, p | o in book && p in writes :: book[o].ordinal != writes[p].ordinal
    ensures Ranked(book + writes, high)
  {}

  /** Committed rows and the transaction's own never share an ordinal. */
  lemma CommitKeepsBook(m: Market, tx: TxId)
    requires Invariant(m) && tx in m.txs
    ensures BookOk(Step(m, Commit(tx)))
  {
    var writes := m.txs[tx].writes;
    forall p | p in writes
      ensures 1 <= writes[p].ordinal <= Drawn(m.sequence)
      ensures forall o | o in m.book :: m.book[o].ordinal != writes[p].ordinal
    {
      assert WriteOk(m, tx, p);
    }
    assert Ranked(writes, Drawn(m.sequence)) && Ranked(m.book, Drawn(m.sequence));
    MergeRanked(m.book, writes, Drawn(m.sequence));
    hide WritesOk, WriteOk, WritesDistinct, LocksExclusive;
  }

  lemma CommitKeepsInvariant(m: Market, tx: TxId)
    requires Invariant(m) && tx in m.txs
    ensures Invariant(Step(m, Commit(tx)))
  {
    CommitKeepsBook(m, tx);
    var next := Step(m, Commit(tx));
    forall t, o | t in next.txs && o in next.txs[t].writes ensures WriteOk(next, t, o) {
      assert t in m.txs && o in m.txs[t].writes && WriteOk(m, t, o);
      var row := m.txs[t].writes[o];
      forall p | p in next.book
        ensures next.book[p].slice == row.slice ==> next.book[p].ordinal < row.ordinal
        ensures next.book[p].ordinal != row.ordinal
        ensures p == o ==> next.book[p].slice == row.slice
      {
        if p in m.txs[tx].writes { assert WriteOk(m, tx, p); }
      }
    }
  }

  lemma StepKeepsInvariant(m: Market, event: Event)
    requires Invariant(m)
    ensures Invariant(Step(m, event))
  {
    match event
    case Lock(tx, slice) => LockKeepsInvariant(m, tx, slice);
    case Insert(tx, order, slice) =>
      if slice in Current(m, tx).locks && Unused(m, order) { DrawKeepsInvariant(m, tx, order, slice); }
    case Requeue(tx, order) =>
      if order in m.book && m.book[order].slice in Current(m, tx).locks {
        forall t | t in m.txs && t != tx ensures order !in m.txs[t].writes {
          assert order in m.txs[t].writes ==> WriteOk(m, t, order);
        }
        DrawKeepsInvariant(m, tx, order, m.book[order].slice);
      }
    case Commit(tx) => if tx in m.txs { CommitKeepsInvariant(m, tx); }
    case Abort(tx) =>
      var next := Step(m, event);
      forall t, o | t in next.txs && o in next.txs[t].writes ensures WriteOk(next, t, o) { assert WriteOk(m, t, o); }
  }

  /** No run of admissions, aborts and requeues ever makes two orders collide. */
  lemma {:induction false} RunKeepsInvariant(m: Market, events: seq<Event>)
    requires Invariant(m)
    ensures Invariant(Run(m, events))
    decreases |events|
  {
    if events != [] {
      StepKeepsInvariant(m, events[0]);
      hide Invariant, Step;
      RunKeepsInvariant(Step(m, events[0]), events[1..]);
    }
  }

  /** Once b has joined a's queue behind it, or has not joined it yet; a may only have moved back since. */
  predicate Behind(m: Market, a: Id, was: Row, b: Id) {
    && a in m.book && m.book[a].slice == was.slice && was.ordinal <= m.book[a].ordinal
    && (b in m.book && m.book[b].slice == was.slice ==> was.ordinal < m.book[b].ordinal)
  }

  lemma StepKeepsBehind(m: Market, event: Event, a: Id, was: Row, b: Id)
    requires Invariant(m) && Behind(m, a, was, b)
    ensures Behind(Step(m, event), a, was, b)
  {
    if event.Commit? && event.tx in m.txs {
      var writes := m.txs[event.tx].writes;
      if a in writes { assert WriteOk(m, event.tx, a); }
      if b in writes { assert WriteOk(m, event.tx, b); }
    }
  }

  lemma {:induction false} RunKeepsBehind(m: Market, events: seq<Event>, a: Id, was: Row, b: Id)
    requires Invariant(m) && Behind(m, a, was, b)
    ensures Behind(Run(m, events), a, was, b)
    decreases |events|
  {
    if events != [] {
      StepKeepsInvariant(m, events[0]);
      StepKeepsBehind(m, events[0], a, was, b);
      hide Invariant, Step, Behind;
      RunKeepsBehind(Step(m, events[0]), events[1..], a, was, b);
    }
  }

  predicate CommitsRequeue(m: Market, event: Event, a: Id) {
    event.Commit? && event.tx in m.txs && a in m.txs[event.tx].writes
  }

  /** No commit of the run writes this order, be its requeue drawn during the run or before it. */
  predicate NotRequeued(m: Market, events: seq<Event>, a: Id)
    decreases |events|
  {
    events == [] || (!CommitsRequeue(m, events[0], a) && NotRequeued(Step(m, events[0]), events[1..], a))
  }

  lemma StepMovesBackOnly(m: Market, event: Event, a: Id)
    requires Invariant(m) && a in m.book
    ensures var next := Step(m, event);
            && a in next.book && next.book[a].slice == m.book[a].slice
            && (if CommitsRequeue(m, event, a) then m.book[a].ordinal < next.book[a].ordinal
                else next.book[a] == m.book[a])
  {
    if CommitsRequeue(m, event, a) { assert WriteOk(m, event.tx, a); }
  }

  /** An order keeps its ordinal exactly when none of its requeues commits, and can only ever move back. */
  lemma {:induction false} PlaceIsKeptOrLost(m: Market, events: seq<Event>, a: Id)
    requires Invariant(m) && a in m.book
    ensures var end := Run(m, events).book;
            && a in end && end[a].slice == m.book[a].slice && m.book[a].ordinal <= end[a].ordinal
            && (NotRequeued(m, events, a) <==> end[a] == m.book[a])
    decreases |events|
  {
    if events != [] {
      StepKeepsInvariant(m, events[0]);
      StepMovesBackOnly(m, events[0], a);
      hide Invariant, Step;
      PlaceIsKeptOrLost(Step(m, events[0]), events[1..], a);
    }
  }

  /** First come, first served within a slice: an order in the queue stays ahead of every order that becomes
      visible later, whatever transactions abort, unless a requeue of its own commits; and exactly then it
      loses its place, and only to the back. */
  lemma QueueIsFair(m: Market, events: seq<Event>, a: Id, b: Id)
    requires Invariant(m) && a in m.book && b !in m.book
    requires var end := Run(m, events).book; b in end && end[b].slice == m.book[a].slice
    ensures var end := Run(m, events).book;
            && a in end && m.book[a].ordinal <= end[a].ordinal && m.book[a].ordinal < end[b].ordinal
            && (NotRequeued(m, events, a) <==> end[a] == m.book[a])
            && (NotRequeued(m, events, a) ==> end[a].ordinal < end[b].ordinal)
  {
    RunKeepsBehind(m, events, a, m.book[a], b);
    PlaceIsKeptOrLost(m, events, a);
  }

  /** The row had been drawn in that state, committed or still pending. */
  predicate DrawnIn(m: Market, o: Id, row: Row) {
    || (o in m.book && m.book[o] == row)
    || (exists t | t in m.txs :: o in m.txs[t].writes && m.txs[t].writes[o] == row)
  }

  /** Every row of the later state, committed or pending, had been drawn in the earlier one or ranks above all
      that the earlier one had drawn. */
  predicate DrawsOn(earlier: Market, m: Market) {
    var mark := Drawn(earlier.sequence);
    && mark <= Drawn(m.sequence)
    && (forall o | o in m.book :: DrawnIn(earlier, o, m.book[o]) || mark < m.book[o].ordinal)
    && (forall t, o | t in m.txs && o in m.txs[t].writes ::
          DrawnIn(earlier, o, m.txs[t].writes[o]) || mark < m.txs[t].writes[o].ordinal)
  }

  lemma StepDrawsOn(earlier: Market, m: Market, event: Event)
    requires DrawsOn(earlier, m)
    ensures DrawsOn(earlier, Step(m, event))
  {
    hide DrawnIn;
    var next := Step(m, event);
    match event
    case Lock(tx, slice) =>
      assert forall t | t in next.txs :: next.txs[t].writes == Current(m, t).writes;
    case _ =>
  }

  lemma {:induction false} RunDrawsOn(earlier: Market, m: Market, events: seq<Event>)
    requires DrawsOn(earlier, m)
    ensures DrawsOn(earlier, Run(m, events))
    decreases |events|
  {
    hide DrawsOn, Step;
    if events != [] {
      StepDrawsOn(earlier, m, events[0]);
      RunDrawsOn(earlier, Step(m, events[0]), events[1..]);
    }
  }

  /** Across slices the draw decides: taken at any reachable state, with any transactions in flight, everything
      drawn so far ranks below everything drawn in any later run, however commits and aborts interleave. */
  lemma LaterDrawsRankBehind(m: Market, events: seq<Event>)
    requires Invariant(m)
    ensures DrawsOn(m, Run(m, events))
    ensures forall o, row :: DrawnIn(m, o, row) ==> row.ordinal <= Drawn(m.sequence)
  {
    forall o, row | DrawnIn(m, o, row) ensures row.ordinal <= Drawn(m.sequence) {
      assert forall t | t in m.txs && o in m.txs[t].writes :: WriteOk(m, t, o);
    }
    RunDrawsOn(m, m, events);
  }

  // ---------- whole transactions ----------

  lemma RunThree(m: Market, a: Event, b: Event, c: Event)
    ensures Run(m, [a, b, c]) == Step(Step(Step(m, a), b), c)
  {
    hide Step;
    assert [a, b, c][1..] == [b, c] && [b, c][1..] == [c] && [c][1..] == [];
    assert Run(m, [a, b, c]) == Run(Step(m, a), [b, c]);
    assert Run(Step(m, a), [b, c]) == Run(Step(Step(m, a), b), [c]);
  }

  /** A new order that finds its slice unlocked enters the book with the next number; if the transaction aborts
      instead, the number is used up and nothing else remains of it. */
  lemma AdmissionGoesThrough(m: Market, tx: TxId, order: Id, slice: Slice)
    requires Invariant(m) && tx !in m.txs && Unused(m, order)
    requires forall t | t in m.txs :: slice !in m.txs[t].locks
    ensures var next := Run(m, [Lock(tx, slice), Insert(tx, order, slice), Commit(tx)]);
            && next.book == m.book[order := Row(slice, Drawn(m.sequence) + 1)] && next.txs == m.txs
            && Drawn(next.sequence) == Drawn(m.sequence) + 1
    ensures var next := Run(m, [Lock(tx, slice), Insert(tx, order, slice), Abort(tx)]);
            next.book == m.book && next.txs == m.txs && Drawn(next.sequence) == Drawn(m.sequence) + 1
  {
    RunThree(m, Lock(tx, slice), Insert(tx, order, slice), Commit(tx));
    RunThree(m, Lock(tx, slice), Insert(tx, order, slice), Abort(tx));
    DrawnAlone(m, tx, order, slice, Insert(tx, order, slice));
    hide Step, Run, Invariant;
  }

  /** So does a requeue of an order in the book: to the end of its own slice, under the same number of orders. */
  lemma RequeueGoesThrough(m: Market, tx: TxId, order: Id)
    requires Invariant(m) && tx !in m.txs && order in m.book
    requires forall t | t in m.txs :: m.book[order].slice !in m.txs[t].locks
    ensures var next := Run(m, [Lock(tx, m.book[order].slice), Requeue(tx, order), Commit(tx)]);
            && next.book == m.book[order := Row(m.book[order].slice, Drawn(m.sequence) + 1)] && next.txs == m.txs
            && Drawn(next.sequence) == Drawn(m.sequence) + 1
    ensures var next := Run(m, [Lock(tx, m.book[order].slice), Requeue(tx, order), Abort(tx)]);
            next.book == m.book && next.txs == m.txs && Drawn(next.sequence) == Drawn(m.sequence) + 1
  {
    var slice := m.book[order].slice;
    RunThree(m, Lock(tx, slice), Requeue(tx, order), Commit(tx));
    RunThree(m, Lock(tx, slice), Requeue(tx, order), Abort(tx));
    DrawnAlone(m, tx, order, slice, Requeue(tx, order));
    hide Step, Run, Invariant;
  }

  lemma DrawnAlone(m: Market, tx: TxId, order: Id, slice: Slice, draw: Event)
    requires Invariant(m) && tx !in m.txs && forall t | t in m.txs :: slice !in m.txs[t].locks
    requires (draw == Insert(tx, order, slice) && Unused(m, order))
             || (draw == Requeue(tx, order) && order in m.book && m.book[order].slice == slice)
    ensures var drawn := Step(Step(m, Lock(tx, slice)), draw);
            && Drawn(drawn.sequence) == Drawn(m.sequence) + 1
            && var committed, aborted := Step(drawn, Commit(tx)), Step(drawn, Abort(tx));
               && committed.book == m.book[order := Row(slice, Drawn(m.sequence) + 1)] && committed.txs == m.txs
               && aborted.book == m.book && aborted.txs == m.txs
               && committed.sequence == aborted.sequence == drawn.sequence
  {
    var v := Drawn(m.sequence) + 1;
    var pending := Market(Sequence(v, true), m.book, m.txs[tx := Tx({slice}, map[order := Row(slice, v)])]);
    OneDraw(m, tx, order, slice, draw, v);
    assert pending.txs - {tx} == m.txs;
    assert m.book + map[order := Row(slice, v)] == m.book[order := Row(slice, v)];
    assert Step(Step(m, Lock(tx, slice)), draw) == pending;
    hide Invariant, Unused, LockFree;
  }

  lemma OneDraw(m: Market, tx: TxId, order: Id, slice: Slice, draw: Event, v: nat)
    requires tx !in m.txs && LockFree(m, tx, slice) && v == Drawn(m.sequence) + 1
    requires (draw == Insert(tx, order, slice) && Unused(m, order))
             || (draw == Requeue(tx, order) && order in m.book && m.book[order].slice == slice)
    ensures Step(Step(m, Lock(tx, slice)), draw)
         == Market(Sequence(v, true), m.book, m.txs[tx := Tx({slice}, map[order := Row(slice, v)])])
  {
    assert Current(m, tx) == Tx({}, map[]) && {} + {slice} == {slice};
    var locked := Step(m, Lock(tx, slice));
    assert locked == m.(txs := m.txs[tx := Tx({slice}, map[])]);
    assert locked.txs[tx := Tx({slice}, map[order := Row(slice, v)])] == m.txs[tx := Tx({slice}, map[order := Row(slice, v)])];
  }

  /** While another transaction holds a slice, its lock is not granted, and without it nothing is drawn. */
  lemma SliceIsExclusive(m: Market, tx: TxId, other: TxId, slice: Slice, order: Id)
    requires Invariant(m) && other in m.txs && slice in m.txs[other].locks && tx != other
    ensures Step(m, Lock(tx, slice)) == m && Step(m, Insert(tx, order, slice)) == m
    ensures order in m.book && m.book[order].slice == slice ==> Step(m, Requeue(tx, order)) == m
  {}

  // ---------- from the upgrade on ----------

  /** The market as the upgrade leaves it. */
  function Upgraded(rows: seq<Existing>, sequence: Sequence): Market
    requires DistinctIds(rows)
  {
    Market(sequence, map i | 0 <= i < |rows| :: rows[i].id := Row(rows[i].slice, RowNumber(rows, rows[i])), map[])
  }

  lemma UpgradedRow(rows: seq<Existing>, sequence: Sequence, o: Id) returns (i: nat)
    requires DistinctIds(rows) && o in Upgraded(rows, sequence).book
    ensures i < |rows| && rows[i].id == o
    ensures Upgraded(rows, sequence).book[o] == Row(rows[i].slice, RowNumber(rows, rows[i]))
  {
    hide RowNumber;
    i :| 0 <= i < |rows| && rows[i].id == o;
  }

  lemma UpgradedIsSound(rows: seq<Existing>, sequence: Sequence)
    requires DistinctIds(rows) && Drawn(sequence) == |rows|
    ensures var start := Upgraded(rows, sequence);
            Invariant(start)
  {
    var start := Upgraded(rows, sequence);
    assert start.sequence == sequence && start.txs == map[];
    hide RowNumber, Before, Upgraded, DistinctIds;
    forall o, p | o in start.book && p in start.book
      ensures 1 <= start.book[o].ordinal <= |rows|
      ensures start.book[o].ordinal == start.book[p].ordinal ==> o == p
    {
      var i := UpgradedRow(rows, sequence, o);
      var j := UpgradedRow(rows, sequence, p);
      RanksFollowAge(rows, i, j);
    }
    assert BookOk(start);
  }

  /** From the upgrade on: ordinals never collide, every order admitted or requeued later ranks after all the
      orders that were ranked by age, and at any point of the run after everything drawn by then. */
  lemma UpgradeThenAdmissions(rows: seq<Existing>, sequence: Sequence, events: seq<Event>, later: seq<Event>)
    requires DistinctIds(rows) && Drawn(sequence) == |rows|
    ensures var start := Upgraded(rows, sequence);
            var middle := Run(start, events);
            var end := Run(middle, later);
            && Invariant(middle) && Invariant(end) && DrawsOn(middle, end)
            && forall o | o in end.book ::
                 (o in start.book && end.book[o] == start.book[o]) || |rows| < end.book[o].ordinal
  {
    var start := Upgraded(rows, sequence);
    UpgradedIsSound(rows, sequence);
    assert start.txs == map[] && Drawn(start.sequence) == |rows|;
    hide Invariant, DistinctIds, Run, Upgraded, Drawn;
    RunKeepsInvariant(start, events);
    RunKeepsInvariant(Run(start, events), later);
    LaterDrawsRankBehind(Run(start, events), later);
    LaterDrawsRankBehind(start, events);
    RunDrawsOn(start, Run(start, events), later);
  }
}
