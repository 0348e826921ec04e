/** The pre-auth limiter: a fixed-window counter per (prefix, client address), kept in one
    dictionary that is cleared when it is full. */
module RateLimit {
  import opened Sql

  type Key = (string, string)
  datatype Bucket = Bucket(started: real, count: nat)
  type Buckets = map<Key, Bucket>
  datatype Rule = Rule(prefix: string, limit: nat, window: real)

  const MAX_BUCKETS: nat := 50_000

  const PREAUTH_LIMITS: seq<Rule> := [
    Rule("/api/auth/login", 30, 60.0),
    Rule("/api/auth/forgot-password", 15, 60.0),
    Rule("/api/auth/admin/", 300, 60.0),
    Rule("/api/auth/approve/", 300, 60.0),
    Rule("/api/auth/reject/", 300, 60.0),
    Rule("/api/auth/organization/", 300, 60.0),
    Rule("/api/auth/organization-joins", 300, 60.0),
    Rule("/api/ai/chat", 60, 60.0),
    Rule("/api/kyc/submit", 20, 60.0),
    Rule("/api/admin/", 300, 60.0)
  ]

  datatype Request = Request(key: Key, limit: nat, window: real, now: real)

  // ---------- one request against the shared dictionary ----------

  /** The window the request falls into: the stored one, or a fresh one that starts now. */
  function CurrentWindow(stored: Option<Bucket>, r: Request): Bucket {
    if stored.Some? && r.now - stored.value.started < r.window then stored.value else Bucket(r.now, 0)
  }

  function Stored(b: Buckets, k: Key): Option<Bucket> { if k in b then Some(b[k]) else None }

  predicate Allows(stored: Option<Bucket>, r: Request) { CurrentWindow(stored, r).count < r.limit }

  predicate Clears(b: Buckets, r: Request) {
    Allows(Stored(b, r.key), r) && |b| >= MAX_BUCKETS && r.key !in b
  }

  function Next(b: Buckets, r: Request): Buckets {
    if !Allows(Stored(b, r.key), r) then b
    else
      var w := CurrentWindow(Stored(b, r.key), r);
      (if Clears(b, r) then map[] else b)[r.key := Bucket(w.started, w.count + 1)]
  }

  class PreauthLimiter {
    var buckets: Buckets

    ghost predicate Valid()
      reads this
    {
      |buckets| <= MAX_BUCKETS
    }

    constructor ()
      ensures Valid() && buckets == map[]
    {
      buckets := map[];
    }

    method Check(prefix: string, limit: nat, window: real, address: string, now: real) returns (allowed: bool)
      requires Valid()
      modifies this
      ensures Valid()
      ensures var r := Request((prefix, address), limit, window, now);
              allowed == Allows(Stored(old(buckets), r.key), r) && buckets == Next(old(buckets), r)
    {
      var key := (prefix, address);
      var started, count := now, 0;
      if key in buckets {
        started, count := buckets[key].started, buckets[key].count;
      }
      if now - started >= window {
        started, count := now, 0;
      }
      if count >= limit {
        return false;
      }
      if |buckets| >= MAX_BUCKETS && key !in buckets {
        buckets := map[];
      }
      buckets := buckets[key := Bucket(started, count + 1)];
      return true;
    }

    /** The middleware: the first rule whose prefix matches decides; no rule means no limit. */
    method Admit(rules: seq<Rule>, path: string, address: string, now: real) returns (retryAfter: Option<real>)
      requires Valid()
      modifies this
      ensures Valid()
      ensures var i := FirstMatch(rules, path);
              if i == |rules| then retryAfter == None && buckets == old(buckets)
              else
                var r := Request((rules[i].prefix, address), rules[i].limit, rules[i].window, now);
                && buckets == Next(old(buckets), r)
                && retryAfter == if Allows(Stored(old(buckets), r.key), r) then None else Some(rules[i].window)
    {
      var i := 0;
      while i < |rules|
        invariant 0 <= i <= |rules|
        invariant i <= FirstMatch(rules, path)
        invariant Valid() && buckets == old(buckets)
      {
        if rules[i].prefix <= path {
          FirstMatchIs(rules, path, i);
          var allowed := Check(rules[i].prefix, rules[i].limit, rules[i].window, address, now);
          return if allowed then None else Some(rules[i].window);
        }
        i := i + 1;
      }
      return None;
    }
  }

  /** The index of the first rule that matches, or the number of rules. */
  function FirstMatch(rules: seq<Rule>, path: string): (i: nat)
    ensures i <= |rules|
    ensures i < |rules| ==> rules[i].prefix <= path
    ensures forall j | 0 <= j < i :: !(rules[j].prefix <= path)
  {
    if rules == [] || rules[0].prefix <= path then 0 else 1 + FirstMatch(rules[1..], path)
  }

  lemma FirstMatchIs(rules: seq<Rule>, path: string, i: nat)
    requires i < |rules| && rules[i].prefix <= path && i <= FirstMatch(rules, path)
    ensures FirstMatch(rules, path) == i
  {}

  // ---------- traces ----------

  function After(b: Buckets, trace: seq<Request>): Buckets
    decreases |trace|
  {
    if trace == [] then b else After(Next(b, trace[0]), trace[1..])
  }

  /** How many requests for the key are let through. */
  function AllowedCount(b: Buckets, trace: seq<Request>, k: Key): nat
    decreases |trace|
  {
    if trace == [] then 0
    else (if trace[0].key == k && Allows(Stored(b, k), trace[0]) then 1 else 0)
         + AllowedCount(Next(b, trace[0]), trace[1..], k)
  }

  /** How often the whole dictionary is cleared. */
  function ClearCount(b: Buckets, trace: seq<Request>): nat
    decreases |trace|
  {
    if trace == [] then 0
    else (if Clears(b, trace[0]) then 1 else 0) + ClearCount(Next(b, trace[0]), trace[1..])
  }

  predicate Within(trace: seq<Request>, from: real, until: real) {
    forall i | 0 <= i < |trace| :: from <= trace[i].now < until
  }

  predicate Before(trace: seq<Request>, until: real) { forall i | 0 <= i < |trace| :: trace[i].now < until }

  predicate UsesRule(trace: seq<Request>, k: Key, limit: nat, window: real) {
    forall i | 0 <= i < |trace| :: trace[i].key == k ==> trace[i].limit == limit && trace[i].window == window
  }

  /** A stored bucket started before the given time and has been used, within the limit. */
  predicate StartedBefore(b: Buckets, k: Key, limit: nat, time: real) {
    k in b ==> b[k].started < time && 1 <= b[k].count <= limit
  }

  lemma {:induction false} PrefixStartsBefore(b: Buckets, trace: seq<Request>, k: Key, limit: nat, window: real, time: real)
    requires StartedBefore(b, k, limit, time) && Before(trace, time) && UsesRule(trace, k, limit, window)
    ensures StartedBefore(After(b, trace), k, limit, time)
    decreases |trace|
  {
    if trace != [] {
      PrefixStartsBefore(Next(b, trace[0]), trace[1..], k, limit, window, time);
    }
  }

  /** What the key may still be granted until the end of an interval of one window length,
      not counting what clears give back. */
  function Allowance(b: Buckets, k: Key, limit: nat, from: real): int {
    if k !in b then limit
    else if b[k].started < from then limit - b[k].count + limit
    else limit - b[k].count
  }

  /** One request spends at most the allowance it uses up; a clear gives back one limit. */
  lemma PotentialStep(b: Buckets, r: Request, k: Key, limit: nat, window: real, from: real)
    requires k in b ==> 1 <= b[k].count <= limit
    requires from <= r.now < from + window
    requires r.key == k ==> r.limit == limit && r.window == window
    ensures var next := Next(b, r);
            && (k in next ==> 1 <= next[k].count <= limit)
            && (if r.key == k && Allows(Stored(b, k), r) then 1 else 0) + Allowance(next, k, limit, from)
               <= Allowance(b, k, limit, from) + (if Clears(b, r) then limit else 0)
  {}

  lemma {:induction false} WindowPotential(b: Buckets, trace: seq<Request>, k: Key, limit: nat, window: real, from: real)
    requires k in b ==> 1 <= b[k].count <= limit
    requires Within(trace, from, from + window) && UsesRule(trace, k, limit, window)
    ensures AllowedCount(b, trace, k) <= Allowance(b, k, limit, from) + limit * ClearCount(b, trace)
    decreases |trace|
  {
    hide Next, Allows, Clears, Allowance;
    if trace == [] {
      assert Allowance(b, k, limit, from) >= 0 by { AllowanceIsNatural(b, k, limit, from); }
    } else {
      var r, next := trace[0], Next(b, trace[0]);
      PotentialStep(b, r, k, limit, window, from);
      WindowPotential(next, trace[1..], k, limit, window, from);
      Distribute(limit, if Clears(b, r) then 1 else 0, ClearCount(next, trace[1..]));
    }
  }

  lemma AllowanceIsNatural(b: Buckets, k: Key, limit: nat, from: real)
    requires k in b ==> 1 <= b[k].count <= limit
    ensures Allowance(b, k, limit, from) >= 0
  {}

  lemma Distribute(limit: nat, x: nat, y: nat)
    ensures limit * (x + y) == limit * x + limit * y
  {}

  /** Sliding-window bound: in any half-open interval of one window length, a key is let through
      fewer than limit * (2 + c) times, where c is the number of clears inside the interval. */
  lemma SlidingWindowBound(before: seq<Request>, during: seq<Request>, k: Key, limit: nat, window: real, from: real)
    requires Before(before, from) && Within(during, from, from + window)
    requires UsesRule(before, k, limit, window) && UsesRule(during, k, limit, window)
    ensures var b := After(map[], before);
            && AllowedCount(b, during, k) <= limit * (2 + ClearCount(b, during))
            && (limit > 0 ==> AllowedCount(b, during, k) < limit * (2 + ClearCount(b, during)))
  {
    PrefixStartsBefore(map[], before, k, limit, window, from);
    var b := After(map[], before);
    WindowPotential(b, during, k, limit, window, from);
    assert limit * (2 + ClearCount(b, during)) == 2 * limit + limit * ClearCount(b, during);
  }

  // ---------- the bound is reached ----------

  lemma {:induction false} Concatenation(b: Buckets, s: seq<Request>, t: seq<Request>, k: Key)
    ensures After(b, s + t) == After(After(b, s), t)
    ensures AllowedCount(b, s + t, k) == AllowedCount(b, s, k) + AllowedCount(After(b, s), t, k)
    ensures ClearCount(b, s + t) == ClearCount(b, s) + ClearCount(After(b, s), t)
    decreases |s|
  {
    hide Next, Allows, Clears;
    if s == [] {
      assert s + t == t;
    } else {
      assert (s + t)[1..] == s[1..] + t;
      Concatenation(Next(b, s[0]), s[1..], t, k);
    }
  }

  function Burst(r: Request, n: nat): seq<Request> { seq(n, _ => r) }

  /** Inside a running window every request up to the limit passes. */
  lemma {:induction false} BurstInWindow(b: Buckets, r: Request, n: nat)
    requires r.key in b && r.now - b[r.key].started < r.window && b[r.key].count + n <= r.limit
    ensures AllowedCount(b, Burst(r, n), r.key) == n && ClearCount(b, Burst(r, n)) == 0
    ensures After(b, Burst(r, n)) == b[r.key := Bucket(b[r.key].started, b[r.key].count + n)]
    decreases n
  {
    if n == 0 {
      assert b == b[r.key := Bucket(b[r.key].started, b[r.key].count)];
    } else {
      var next := Next(b, r);
      assert next == b[r.key := Bucket(b[r.key].started, b[r.key].count + 1)];
      assert Burst(r, n)[0] == r && Burst(r, n)[1..] == Burst(r, n - 1);
      BurstInWindow(next, r, n - 1);
      assert After(b, Burst(r, n)) == After(next, Burst(r, n - 1));
    }
  }

  /** A key without a running window gets a whole limit at once. */
  lemma FreshBurst(b: Buckets, r: Request)
    requires 1 <= r.limit && 0.0 < r.window
    requires if r.key in b then r.now - b[r.key].started >= r.window else |b| < MAX_BUCKETS
    ensures AllowedCount(b, Burst(r, r.limit), r.key) == r.limit && ClearCount(b, Burst(r, r.limit)) == 0
    ensures After(b, Burst(r, r.limit)) == b[r.key := Bucket(r.now, r.limit)]
  {
    var next := Next(b, r);
    assert next == b[r.key := Bucket(r.now, 1)];
    assert Burst(r, r.limit)[0] == r && Burst(r, r.limit)[1..] == Burst(r, r.limit - 1);
    BurstInWindow(next, r, r.limit - 1);
    assert After(b, Burst(r, r.limit)) == After(next, Burst(r, r.limit - 1));
  }

  lemma LongestAddress(keys: set<Key>) returns (n: nat)
    ensures forall x | x in keys :: |x.1| <= n
  {
    if keys == {} {
      n := 0;
    } else {
      var x :| x in keys;
      n := LongestAddress(keys - {x});
      n := if |x.1| > n then |x.1| else n;
    }
  }

  lemma NewKey(keys: set<Key>) returns (x: Key)
    ensures x !in keys
  {
    var n := LongestAddress(keys);
    x := ("", seq(n + 1, _ => '0'));
  }

  /** Requests at one moment for keys other than k. */
  predicate Others(trace: seq<Request>, k: Key, now: real) {
    forall i | 0 <= i < |trace| :: trace[i].key != k && trace[i].now == now
  }

  lemma OtherKeyStep(b: Buckets, r: Request)
    requires r.key !in b && 1 <= r.limit && |b| <= MAX_BUCKETS
    ensures Clears(b, r) <==> |b| == MAX_BUCKETS
    ensures Next(b, r) == (if |b| == MAX_BUCKETS then map[] else b)[r.key := Bucket(r.now, 1)]
    ensures |Next(b, r)| == if |b| == MAX_BUCKETS then 1 else |b| + 1
  {
    var kept: Buckets := if |b| == MAX_BUCKETS then map[] else b;
    assert kept[r.key := Bucket(r.now, 1)].Keys == kept.Keys + {r.key};
    assert |kept| == |kept.Keys| && |Next(b, r)| == |Next(b, r).Keys|;
  }

  /** Enough other keys fill the dictionary and force one clear, which forgets k. */
  lemma {:induction false} ForceClear(b: Buckets, k: Key, now: real) returns (trace: seq<Request>)
    requires |b| <= MAX_BUCKETS
    ensures Others(trace, k, now)
    ensures AllowedCount(b, trace, k) == 0 && ClearCount(b, trace) == 1
    ensures k !in After(b, trace) && |After(b, trace)| == 1
    decreases MAX_BUCKETS - |b|
  {
    var x := NewKey(b.Keys + {k});
    var r := Request(x, 1, 1.0, now);
    var next := Next(b, r);
    OtherKeyStep(b, r);
    hide Next, Allows, Clears;
    var rest: seq<Request> := [];
    if |b| < MAX_BUCKETS { rest := ForceClear(next, k, now); }
    trace := [r] + rest;
    assert trace[1..] == rest;
    assert After(b, trace) == After(next, rest);
    assert AllowedCount(b, trace, k) == AllowedCount(next, rest, k);
    assert ClearCount(b, trace) == (if Clears(b, r) then 1 else 0) + ClearCount(next, rest);
  }

  /** Every request happens at this moment, and those for k under this rule. */
  predicate AllAt(trace: seq<Request>, now: real, k: Key, limit: nat, window: real) {
    UsesRule(trace, k, limit, window) && forall i | 0 <= i < |trace| :: trace[i].now == now
  }

  /** One clear, then a whole limit for k. */
  lemma ClearAndBurstOnce(b: Buckets, r: Request) returns (trace: seq<Request>)
    requires |b| <= MAX_BUCKETS && 1 <= r.limit && 0.0 < r.window
    ensures AllAt(trace, r.now, r.key, r.limit, r.window)
    ensures AllowedCount(b, trace, r.key) == r.limit && ClearCount(b, trace) == 1
    ensures |After(b, trace)| <= 2
  {
    var fill := ForceClear(b, r.key, r.now);
    var cleared := After(b, fill);
    FreshBurst(cleared, r);
    TwoKeys(cleared, r.key, Bucket(r.now, r.limit));
    Concatenation(b, fill, Burst(r, r.limit), r.key);
    trace := fill + Burst(r, r.limit);
    hide After, AllowedCount, ClearCount;
  }

  /** c times. */
  lemma {:induction false} ClearAndBurst(b: Buckets, r: Request, c: nat) returns (trace: seq<Request>)
    requires |b| <= MAX_BUCKETS && 1 <= r.limit && 0.0 < r.window
    ensures AllAt(trace, r.now, r.key, r.limit, r.window)
    ensures AllowedCount(b, trace, r.key) == r.limit * c && ClearCount(b, trace) == c
    decreases c
  {
    if c == 0 {
      trace := [];
    } else {
      var once := ClearAndBurstOnce(b, r);
      hide After, AllowedCount, ClearCount;
      var rest := ClearAndBurst(After(b, once), r, c - 1);
      Concatenation(b, once, rest, r.key);
      trace := once + rest;
      Distribute(r.limit, 1, c - 1);
    }
  }

  lemma TwoKeys(b: Buckets, k: Key, w: Bucket)
    requires |b| == 1
    ensures |b[k := w]| <= 2
  {
    assert b[k := w].Keys == b.Keys + {k};
    if k in b.Keys { assert b.Keys + {k} == b.Keys; }
    assert |b[k := w]| == |b[k := w].Keys| && |b| == |b.Keys|;
  }

  predicate Chronological(trace: seq<Request>) {
    forall i, j | 0 <= i < j < |trace| :: trace[i].now <= trace[j].now
  }

  lemma InOrder(before: seq<Request>, early: seq<Request>, late: seq<Request>, k: Key, limit: nat, window: real)
    requires 0.0 < window && AllAt(before, 0.0, k, limit, window)
    requires AllAt(early, window / 2.0, k, limit, window) && AllAt(late, window, k, limit, window)
    ensures Before(before, window / 2.0) && Within(early + late, window / 2.0, window / 2.0 + window)
    ensures Chronological(before + (early + late)) && UsesRule(early + late, k, limit, window)
  {
    var all := before + (early + late);
    forall i | 0 <= i < |all|
      ensures all[i].now == if i < |before| then 0.0 else if i < |before| + |early| then window / 2.0 else window
    {}
  }

  lemma AfterOne(r: Request)
    requires 1 <= r.limit && 0.0 < r.window
    ensures After(map[], [r]) == map[r.key := Bucket(r.now, 1)]
  {
    var b: Buckets := map[];
    assert After(b, [r]) == After(Next(b, r), [r][1..]);
  }

  /** Late in one window and early in the next: almost two limits pass without a clear. */
  lemma TwoWindows(k: Key, limit: nat, window: real) returns (before: seq<Request>, early: seq<Request>, late: seq<Request>)
    requires 1 <= limit && 0.0 < window
    ensures AllAt(before, 0.0, k, limit, window) && AllAt(early, window / 2.0, k, limit, window)
    ensures AllAt(late, window, k, limit, window)
    ensures var b := After(map[], before);
            && AllowedCount(b, early + late, k) == 2 * limit - 1 && ClearCount(b, early + late) == 0
            && After(b, early + late) == map[k := Bucket(window, limit)]
  {
    before := [Request(k, limit, window, 0.0)];
    AfterOne(before[0]);
    var b := After(map[], before);
    var first, second := Request(k, limit, window, window / 2.0), Request(k, limit, window, window);
    early, late := Burst(first, limit - 1), Burst(second, limit);
    hide After, AllowedCount, ClearCount;
    BurstInWindow(b, first, limit - 1);
    var used := After(b, early);
    assert used == map[k := Bucket(0.0, limit)];
    FreshBurst(used, second);
    assert After(used, late) == map[k := Bucket(window, limit)];
    Concatenation(b, early, late, k);
  }

  /** The bound is reached, for every key, limit, window and number of clears: some chronological trace lets
      limit * (2 + c) - 1 requests through within one window length with exactly c clears. */
  lemma SlidingWindowBoundIsTight(k: Key, limit: nat, window: real, c: nat)
    returns (before: seq<Request>, during: seq<Request>, from: real)
    requires 1 <= limit && 0.0 < window
    ensures Before(before, from) && Within(during, from, from + window) && Chronological(before + during)
    ensures UsesRule(before, k, limit, window) && UsesRule(during, k, limit, window)
    ensures ClearCount(After(map[], before), during) == c
    ensures AllowedCount(After(map[], before), during, k) == limit * (2 + c) - 1
  {
    from := window / 2.0;
    var early, late;
    before, early, late := TwoWindows(k, limit, window);
    var b := After(map[], before);
    var full := After(b, early + late);
    var cleared := ClearAndBurst(full, Request(k, limit, window, window), c);
    Concatenation(b, early + late, cleared, k);
    during := early + (late + cleared);
    assert during == (early + late) + cleared;
    hide After, AllowedCount, ClearCount, Chronological, Before, Within;
    InOrder(before, early, late + cleared, k, limit, window);
    assert limit * (2 + c) == 2 * limit + limit * c;
  }

  lemma {:induction false} NeverMoreThanMaximum(b: Buckets, trace: seq<Request>)
    requires |b| <= MAX_BUCKETS
    ensures |After(b, trace)| <= MAX_BUCKETS
    decreases |trace|
  {
    if trace != [] {
      NeverMoreThanMaximum(Next(b, trace[0]), trace[1..]);
    }
  }

  // ---------- independence of keys ----------

  function Only(trace: seq<Request>, k: Key): seq<Request> {
    if trace == [] then []
    else (if trace[0].key == k then [trace[0]] else []) + Only(trace[1..], k)
  }

  /** The answers given to one key, in order. */
  function Answers(b: Buckets, trace: seq<Request>, k: Key): seq<bool>
    decreases |trace|
  {
    if trace == [] then []
    else (if trace[0].key == k then [Allows(Stored(b, k), trace[0])] else [])
         + Answers(Next(b, trace[0]), trace[1..], k)
  }

  /** An independent counter that knows a single key and is never cleared. */
  function Alone(cell: Option<Bucket>, trace: seq<Request>): seq<bool>
    decreases |trace|
  {
    if trace == [] then []
    else
      var w := CurrentWindow(cell, trace[0]);
      var allowed := Allows(cell, trace[0]);
      [allowed] + Alone(if allowed then Some(Bucket(w.started, w.count + 1)) else cell, trace[1..])
  }

  lemma {:induction false} RestOfWindow(cell: Bucket, trace: seq<Request>, limit: nat, window: real)
    requires cell.count <= limit
    requires forall i | 0 <= i < |trace| :: trace[i].limit == limit && trace[i].window == window
    requires Within(trace, cell.started, cell.started + window)
    ensures var answers := Alone(Some(cell), trace);
            |answers| == |trace| && forall i | 0 <= i < |trace| :: answers[i] <==> cell.count + i < limit
    decreases |trace|
  {
    if trace != [] {
      RestOfWindow(if cell.count < limit then Bucket(cell.started, cell.count + 1) else cell, trace[1..], limit, window);
    }
  }

  /** A window starts with the first request and lets exactly the first `limit` of its requests through; a
      refusal neither counts nor extends it, so that the first request after it starts the next one. */
  lemma WindowAnswers(first: Request, rest: seq<Request>, after: Request)
    requires forall i | 0 <= i < |rest| :: rest[i].limit == first.limit && rest[i].window == first.window
    requires Within(rest, first.now, first.now + first.window) && 0.0 < first.window
    requires after.limit == first.limit && after.window == first.window && first.now + first.window <= after.now
    ensures var answers := Alone(None, [first] + (rest + [after]));
            && |answers| == |rest| + 2
            && (forall i | 0 <= i <= |rest| :: answers[i] <==> i < first.limit)
            && (answers[|rest| + 1] <==> 0 < first.limit)
  {
    var tail := rest + [after];
    assert ([first] + tail)[1..] == tail;
    if first.limit > 0 {
      var cell := Bucket(first.now, 1);
      RestOfWindow(cell, rest, first.limit, first.window);
      ThenReopens(cell, rest, after);
      assert Alone(None, [first] + tail) == [true] + Alone(Some(cell), tail);
    } else {
      NothingAllowed(tail);
      assert Alone(None, [first] + tail) == [false] + Alone(None, tail);
    }
  }

  lemma {:induction false} NothingAllowed(trace: seq<Request>)
    requires forall i | 0 <= i < |trace| :: trace[i].limit == 0
    ensures var answers := Alone(None, trace); |answers| == |trace| && forall i | 0 <= i < |trace| :: !answers[i]
    decreases |trace|
  {
    if trace != [] { NothingAllowed(trace[1..]); }
  }

  lemma {:induction false} ThenReopens(cell: Bucket, rest: seq<Request>, after: Request)
    requires 0 < after.limit && 0.0 < after.window && cell.started + after.window <= after.now
    requires forall i | 0 <= i < |rest| :: rest[i].window == after.window
    requires Within(rest, cell.started, cell.started + after.window)
    ensures Alone(Some(cell), rest + [after]) == Alone(Some(cell), rest) + [true]
    decreases |rest|
  {
    if rest == [] {
      assert [] + [after] == [after] && [after][1..] == [];
    } else {
      var next := if Allows(Some(cell), rest[0]) then Bucket(cell.started, cell.count + 1) else cell;
      assert (rest + [after])[1..] == rest[1..] + [after];
      ThenReopens(next, rest[1..], after);
    }
  }

  /** Until the dictionary is cleared, other keys do not influence what a key is told. */
  lemma {:induction false} KeysAreIndependent(b: Buckets, trace: seq<Request>, k: Key)
    requires ClearCount(b, trace) == 0
    ensures Answers(b, trace, k) == Alone(Stored(b, k), Only(trace, k))
    decreases |trace|
  {
    if trace != [] {
      var r := trace[0];
      var rest := Only(trace[1..], k);
      assert !Clears(b, r);
      KeysAreIndependent(Next(b, r), trace[1..], k);
      if r.key == k {
        assert Only(trace, k) == [r] + rest && ([r] + rest)[1..] == rest;
        assert Answers(b, trace, k) == [Allows(Stored(b, k), r)] + Answers(Next(b, r), trace[1..], k);
      } else {
        assert Only(trace, k) == rest && Answers(b, trace, k) == Answers(Next(b, r), trace[1..], k);
        assert Stored(Next(b, r), k) == Stored(b, k);
      }
    }
  }
}
