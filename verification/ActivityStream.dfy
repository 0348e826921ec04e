/** The private activity stream: a generator that rechecks its principal every fifteen seconds, closes at
    token expiry, and gives back every bus subscription however it ends. */
module ActivityStream {
  import opened Sql

  type Time = real
  type Channel = string
  type Queue = nat

  const REVALIDATE_EVERY: Time := 15.0
  const KEEPALIVE_EVERY: Time := 30.0
  const LONGEST_WAIT: Time := 0.5
  const SHORTEST_WAIT: Time := 0.1
  const NO_DEADLINE: Time := 30.0
  const MAX_SUBSCRIBERS := 200

  function Max(x: Time, y: Time): Time { if x < y then y else x }

  function Min(x: Time, y: Time): Time { if x < y then x else y }

  // ---------- one round of the loop ----------

  datatype Outcome = Current | Changed | Unavailable

  /** Where a cancellation or an unexpected exception can strike. */
  datatype Point = AtDisconnect | AtCheck | AtWait | AtYield

  /** What the surroundings do during one round: the client may have left, `pause` passes before the clocks
      are read, the database answers after `duration`, a message is ready or arrives while waiting, and the
      client takes `uptake` to come back for more. */
  datatype Round = Round(disconnected: bool, pause: Time, outcome: Outcome, duration: Time,
                         ready: bool, arrival: Option<Time>, uptake: Time, fault: Option<Point>)

  /** Checked records a successful revalidation by the time it started; the others are what the client sees. */
  datatype Entry =
    | Checked(at: Time)
    | Message(at: Time)
    | Keepalive(at: Time)
    | Expired(at: Time)
    | Revoked(at: Time)
    | Refused

  datatype Stream = Stream(clock: Time, nextRevalidation: Time, keepaliveAt: Time, open: bool, log: seq<Entry>)

  /** The principal, when there is one, is its token's expiry. */
  type Principal = Option<Time>

  function Timeout(p: Principal, s: Stream, now: Time): Time {
    Min(LONGEST_WAIT,
      Min(Max(SHORTEST_WAIT, s.keepaliveAt - now),
        Min(if p.Some? then Max(SHORTEST_WAIT, s.nextRevalidation - now) else NO_DEADLINE,
          if p.Some? then Max(SHORTEST_WAIT, p.value - now) else NO_DEADLINE)))
  }

  /** Handing an entry to the client, who may close the generator at that very point. */
  function Yield(s: Stream, e: Entry, at: Time, r: Round): Stream {
    s.(log := s.log + [e], clock := at + r.uptake, open := r.fault != Some(AtYield))
  }

  function Close(s: Stream, e: Entry): Stream { s.(log := s.log + [e], open := false) }

  /** From the timeout on; `now` is the clock as read before the check. */
  function Deliver(p: Principal, s: Stream, now: Time, r: Round): Stream {
    var timeout := Timeout(p, s, now);
    if r.ready then Yield(s, Message(s.clock), s.clock, r)
    else if r.fault == Some(AtWait) then s.(open := false)
    else if r.arrival.Some? && r.arrival.value < timeout then
      var at := s.clock + r.arrival.value;
      Yield(s, Message(at), at, r)
    else
      var at := s.clock + timeout;
      if at >= s.keepaliveAt then Yield(s.(keepaliveAt := at + r.uptake + KEEPALIVE_EVERY), Keepalive(at), at, r)
      else s.(clock := at)
  }

  function Tick(p: Principal, s: Stream, r: Round): Stream {
    if r.disconnected || r.fault == Some(AtDisconnect) then s.(open := false)
    else
      var now := s.clock + r.pause;
      if p.Some? && now >= p.value then Close(s.(clock := now), Expired(now))
      else if p.Some? && now >= s.nextRevalidation then
        var answered := s.(clock := now + r.duration);
        if r.fault == Some(AtCheck) then answered.(open := false)
        else if r.outcome.Current? then
          Deliver(p, answered.(nextRevalidation := now + REVALIDATE_EVERY, log := s.log + [Checked(now)]), now, r)
        else Close(answered, Revoked(answered.clock))
      else Deliver(p, s.(clock := now), now, r)
  }

  function Opened(start: Time): Stream { Stream(start, 0.0, start + KEEPALIVE_EVERY, true, []) }

  /** The generator over finitely many rounds; whatever remains of the world cancels it afterwards. */
  function Run(p: Principal, s: Stream, rounds: seq<Round>): Stream
    decreases |rounds|
  {
    if rounds == [] || !s.open then s else Run(p, Tick(p, s, rounds[0]), rounds[1..])
  }

  // ---------- what is delivered ----------

  predicate CheckDue(p: Principal, s: Stream, r: Round) { p.Some? && s.clock + r.pause >= s.nextRevalidation }

  /** The round finds the client connected and authorized and comes to its queues. */
  predicate ReachesQueues(p: Principal, s: Stream, r: Round) {
    && !r.disconnected && r.fault != Some(AtDisconnect)
    && (p.Some? ==> s.clock + r.pause < p.value)
    && (CheckDue(p, s, r) ==> r.outcome.Current? && r.fault != Some(AtCheck))
  }

  /** Within a tenth of a second, or within half a second if no deadline falls in between. */
  predicate Soon(p: Principal, s: Stream, r: Round, wait: Time) {
    var now := s.clock + r.pause;
    && wait < 0.5
    && (|| wait < 0.1
        || (&& now + wait < s.keepaliveAt
            && (p.Some? ==> now + wait < p.value && (CheckDue(p, s, r) || now + wait < s.nextRevalidation))))
  }

  /** A message is there, or comes soon enough. */
  predicate Sends(p: Principal, s: Stream, r: Round) {
    ReachesQueues(p, s, r)
    && (r.ready || (r.fault != Some(AtWait) && r.arrival.Some? && Soon(p, s, r, r.arrival.value)))
  }

  /** With or without a principal, such a round sends its message as soon as the check has answered and the
      message is there, and stays open unless the client leaves at that point; after a successful check that is
      the only other thing it records. */
  lemma MessageIsSent(p: Principal, s: Stream, r: Round)
    requires Sends(p, s, r)
    ensures var due, next := CheckDue(p, s, r), Tick(p, s, r);
            var at := s.clock + r.pause + (if due then r.duration else 0.0) + (if r.ready then 0.0 else r.arrival.value);
            && next.log == s.log + (if due then [Checked(s.clock + r.pause)] else []) + [Message(at)]
            && next.clock == at + r.uptake && next.keepaliveAt == s.keepaliveAt
            && (next.open <==> r.fault != Some(AtYield))
  {
    if !r.ready { SoonIsBeforeTheTimeout(p, s, r, r.arrival.value); }
    hide Timeout;
  }

  /** The timeout of the wait, as four deadlines. */
  lemma SoonIsBeforeTheTimeout(p: Principal, s: Stream, r: Round, wait: Time)
    ensures var now := s.clock + r.pause;
            var checked := if CheckDue(p, s, r) then s.(nextRevalidation := now + REVALIDATE_EVERY) else s;
            Soon(p, s, r, wait) <==> wait < Timeout(p, checked, now)
  {}

  function Messages(log: seq<Entry>): nat {
    if log == [] then 0 else (if log[|log| - 1].Message? then 1 else 0) + Messages(log[..|log| - 1])
  }

  lemma OneMoreEntry(log: seq<Entry>, e: Entry)
    ensures Messages(log + [e]) == Messages(log) + (if e.Message? then 1 else 0)
  {
    assert (log + [e])[..|log|] == log;
  }

  /** Before the queues: the client left, the token expired, the check struck out or was denied. */
  lemma StreamEnds(p: Principal, s: Stream, r: Round)
    requires !ReachesQueues(p, s, r)
    ensures var now, next := s.clock + r.pause, Tick(p, s, r);
            && !next.open
            && next.log ==
                 if r.disconnected || r.fault == Some(AtDisconnect) then s.log
                 else if p.Some? && now >= p.value then s.log + [Expired(now)]
                 else if r.fault == Some(AtCheck) then s.log
                 else s.log + [Revoked(now + r.duration)]
  {}

  lemma QuietWait(p: Principal, s: Stream, now: Time, r: Round)
    requires !r.ready && (r.arrival.Some? && r.fault != Some(AtWait) ==> r.arrival.value >= Timeout(p, s, now))
    ensures var next := Deliver(p, s, now, r);
            var at := next.clock - r.uptake;
            if r.fault == Some(AtWait) then next == s.(open := false)
            else
              || (next == s.(clock := next.clock) && next.clock < s.keepaliveAt)
              || (&& s.keepaliveAt <= at
                  && next == s.(log := s.log + [Keepalive(at)], clock := next.clock, keepaliveAt := next.clock + 30.0,
                                open := r.fault != Some(AtYield)))
  {
    hide Timeout;
  }

  /** The stream when the check, if one was due, has answered. */
  function Answered(p: Principal, s: Stream, r: Round): Stream {
    var now := s.clock + r.pause;
    if CheckDue(p, s, r)
    then s.(clock := now + r.duration, nextRevalidation := now + 15.0, log := s.log + [Checked(now)])
    else s.(clock := now)
  }

  lemma QuietRound(p: Principal, s: Stream, r: Round)
    requires ReachesQueues(p, s, r) && !Sends(p, s, r)
    ensures var now, answered := s.clock + r.pause, Answered(p, s, r);
            && Tick(p, s, r) == Deliver(p, answered, now, r)
            && !r.ready && (r.arrival.Some? && r.fault != Some(AtWait) ==> r.arrival.value >= Timeout(p, answered, now))
  {
    if r.arrival.Some? { SoonIsBeforeTheTimeout(p, s, r, r.arrival.value); }
    hide Soon, Deliver;
  }

  /** Nothing in the queues and nothing soon: a quiet stream stays open, and once its keepalive is due it
      reminds the client, the next time at least 30 seconds later. */
  lemma StreamIsQuiet(p: Principal, s: Stream, r: Round)
    requires ReachesQueues(p, s, r) && !Sends(p, s, r)
    ensures var next, answered := Tick(p, s, r), Answered(p, s, r);
            var at := next.clock - r.uptake;
            if r.fault == Some(AtWait) then next == answered.(open := false)
            else
              || (next == answered.(clock := next.clock) && next.clock < s.keepaliveAt)
              || (&& s.keepaliveAt <= at
                  && next == answered.(log := answered.log + [Keepalive(at)], clock := next.clock,
                                       keepaliveAt := next.clock + 30.0, open := r.fault != Some(AtYield)))
  {
    QuietRound(p, s, r);
    QuietWait(p, Answered(p, s, r), s.clock + r.pause, r);
    hide Tick, Deliver, Timeout, Sends, ReachesQueues;
  }

  /** Without a message, a round adds at most a successful check and one other entry. */
  ghost predicate AddsNoMessage(log: seq<Entry>, check: Entry, next: seq<Entry>) {
    || next == log || next == log + [check]
    || (exists e: Entry :: !e.Message? && (next == log + [e] || next == log + [check] + [e]))
  }

  lemma QuietEntries(p: Principal, s: Stream, r: Round)
    requires !Sends(p, s, r)
    ensures AddsNoMessage(s.log, Checked(s.clock + r.pause), Tick(p, s, r).log)
  {
    var next := Tick(p, s, r);
    hide Tick, Sends;
    if ReachesQueues(p, s, r) {
      StreamIsQuiet(p, s, r);
    } else {
      StreamEnds(p, s, r);
    }
    if |next.log| > |s.log| {
      var e := next.log[|next.log| - 1];
      assert e.Checked? || next.log == s.log + [e] || next.log == s.log + [Checked(s.clock + r.pause)] + [e];
    }
  }

  lemma QuietCount(log: seq<Entry>, check: Entry, next: seq<Entry>)
    requires AddsNoMessage(log, check, next) && check.Checked?
    ensures Messages(next) == Messages(log)
  {
    OneMoreEntry(log, check);
    if next != log && next != log + [check] {
      var e: Entry :| !e.Message? && (next == log + [e] || next == log + [check] + [e]);
      OneMoreEntry(log, e);
      OneMoreEntry(log + [check], e);
    }
    hide Messages;
  }

  lemma MessagesOfARound(p: Principal, s: Stream, r: Round)
    ensures Messages(Tick(p, s, r).log) == Messages(s.log) + (if Sends(p, s, r) then 1 else 0)
  {
    var next, check := Tick(p, s, r), Checked(s.clock + r.pause);
    hide Tick, Sends, Messages, CheckDue, AddsNoMessage;
    if Sends(p, s, r) {
      MessageIsSent(p, s, r);
      var e := next.log[|next.log| - 1];
      OneMoreEntry(s.log, check);
      OneMoreEntry(s.log, e);
      OneMoreEntry(s.log + [check], e);
      assert s.log + [] == s.log;
    } else {
      QuietEntries(p, s, r);
      QuietCount(s.log, check, next.log);
    }
  }

  /** The rounds of a run that find or get a message in time. */
  function Sendings(p: Principal, s: Stream, rounds: seq<Round>): nat
    decreases |rounds|
  {
    if rounds == [] || !s.open then 0
    else (if Sends(p, s, rounds[0]) then 1 else 0) + Sendings(p, Tick(p, s, rounds[0]), rounds[1..])
  }

  /** Over every run, every one of these messages is sent, and no other. */
  lemma {:induction false} EveryMessageIsSent(p: Principal, s: Stream, rounds: seq<Round>)
    ensures Messages(Run(p, s, rounds).log) == Messages(s.log) + Sendings(p, s, rounds)
    decreases |rounds|
  {
    hide Tick, Sends;
    if rounds != [] && s.open {
      MessagesOfARound(p, s, rounds[0]);
      EveryMessageIsSent(p, Tick(p, s, rounds[0]), rounds[1..]);
    }
  }

  // ---------- spacing ----------

  /** The database is asked at most every 15 seconds and reminders are at least 30 seconds apart. */
  predicate Spaced(log: seq<Entry>) {
    forall i, j | 0 <= i < j < |log| ::
      && (log[i].Checked? && log[j].Checked? ==> log[i].at + 15.0 <= log[j].at)
      && (log[i].Keepalive? && log[j].Keepalive? ==> log[i].at + 30.0 <= log[j].at)
  }

  /** The entries so far lie before the next deadline of their kind. */
  predicate Scheduled(s: Stream) {
    Spaced(s.log) && forall i | 0 <= i < |s.log| ::
      && (s.log[i].Checked? ==> s.log[i].at + 15.0 <= s.nextRevalidation)
      && (s.log[i].Keepalive? ==> s.log[i].at + 30.0 <= s.keepaliveAt)
  }

  lemma RecordKeepsSchedule(s: Stream, e: Entry, next: Stream)
    requires Scheduled(s) && next.log == s.log + [e]
    requires s.nextRevalidation <= next.nextRevalidation && s.keepaliveAt <= next.keepaliveAt
    requires e.Checked? ==> s.nextRevalidation <= e.at && e.at + 15.0 <= next.nextRevalidation
    requires e.Keepalive? ==> s.keepaliveAt <= e.at && e.at + 30.0 <= next.keepaliveAt
    ensures Scheduled(next)
  {}

  lemma DeliverKeepsSchedule(p: Principal, s: Stream, now: Time, r: Round)
    requires Scheduled(s) && 0.0 <= r.uptake
    ensures Scheduled(Deliver(p, s, now, r))
  {
    hide Timeout, Scheduled;
    var next := Deliver(p, s, now, r);
    if next.log == s.log {
      assert next.nextRevalidation == s.nextRevalidation && next.keepaliveAt == s.keepaliveAt;
      SameSchedule(s, next);
    } else {
      var e := next.log[|next.log| - 1];
      assert next.log == s.log + [e];
      RecordKeepsSchedule(s, e, next);
    }
  }

  lemma SameSchedule(s: Stream, next: Stream)
    requires Scheduled(s) && next.log == s.log
    requires next.nextRevalidation == s.nextRevalidation && next.keepaliveAt == s.keepaliveAt
    ensures Scheduled(next)
  {}

  lemma TickKeepsSchedule(p: Principal, s: Stream, r: Round)
    requires Scheduled(s) && 0.0 <= r.uptake
    ensures Scheduled(Tick(p, s, r))
  {
    var now, next := s.clock + r.pause, Tick(p, s, r);
    hide Scheduled, Deliver;
    if ReachesQueues(p, s, r) {
      var checked := s.(clock := now);
      if CheckDue(p, s, r) {
        checked := s.(clock := now + r.duration, nextRevalidation := now + REVALIDATE_EVERY, log := s.log + [Checked(now)]);
        RecordKeepsSchedule(s, Checked(now), checked);
      } else {
        SameSchedule(s, checked);
      }
      DeliverKeepsSchedule(p, checked, now, r);
    } else if next.log == s.log {
      SameSchedule(s, next);
    } else {
      RecordKeepsSchedule(s, next.log[|s.log|], next);
    }
  }

  lemma {:induction false} RunKeepsSchedule(p: Principal, s: Stream, rounds: seq<Round>)
    requires Scheduled(s) && forall i | 0 <= i < |rounds| :: 0.0 <= rounds[i].uptake
    ensures Scheduled(Run(p, s, rounds))
    decreases |rounds|
  {
    if rounds != [] && s.open {
      TickKeepsSchedule(p, s, rounds[0]);
      hide Tick, Scheduled;
      RunKeepsSchedule(p, Tick(p, s, rounds[0]), rounds[1..]);
    }
  }

  lemma ChecksAreSpaced(p: Principal, start: Time, rounds: seq<Round>)
    requires forall i | 0 <= i < |rounds| :: 0.0 <= rounds[i].uptake
    ensures Spaced(Run(p, Opened(start), rounds).log)
  {
    RunKeepsSchedule(p, Opened(start), rounds);
  }

  // ---------- deadlines ----------

  predicate Plausible(r: Round, longestCheck: Time) {
    && 0.0 <= r.pause && 0.0 <= r.uptake && 0.0 <= r.duration <= longestCheck
    && (r.arrival.Some? ==> 0.0 <= r.arrival.value)
  }

  predicate AllPlausible(rounds: seq<Round>, longestCheck: Time) {
    forall i | 0 <= i < |rounds| :: Plausible(rounds[i], longestCheck)
  }

  /** The start of the last successful revalidation before this point of the log. */
  function LastCheck(log: seq<Entry>): Option<Time> {
    if log == [] then None
    else if log[|log| - 1].Checked? then Some(log[|log| - 1].at)
    else LastCheck(log[..|log| - 1])
  }

  /** How long a successful check can vouch for what is sent. */
  function Vouches(longestCheck: Time): Time { Max(15.1, longestCheck + LONGEST_WAIT) }

  predicate OnTime(before: seq<Entry>, e: Entry, expiry: Time, longestCheck: Time) {
    match e
    case Message(at) =>
      var check := LastCheck(before);
      check.Some? && at < check.value + Vouches(longestCheck) && at < expiry + SHORTEST_WAIT + longestCheck
    case Keepalive(at) =>
      var check := LastCheck(before);
      check.Some? && at <= check.value + Vouches(longestCheck) && at <= expiry + SHORTEST_WAIT + longestCheck
    case Expired(at) => expiry <= at
    case Checked(at) => at < expiry
    case Revoked(_) => true
    case Refused => false
  }

  predicate LogOnTime(log: seq<Entry>, expiry: Time, longestCheck: Time) {
    forall i | 0 <= i < |log| :: OnTime(log[..i], log[i], expiry, longestCheck)
  }

  predicate Invariant(s: Stream, expiry: Time, longestCheck: Time) {
    && 0.0 <= s.clock
    && LogOnTime(s.log, expiry, longestCheck)
    && match LastCheck(s.log)
       case None => s.nextRevalidation == 0.0
       case Some(at) => s.nextRevalidation == at + REVALIDATE_EVERY && at <= s.clock
  }

  lemma Appending(log: seq<Entry>, e: Entry, expiry: Time, longestCheck: Time)
    requires LogOnTime(log, expiry, longestCheck) && OnTime(log, e, expiry, longestCheck)
    ensures LogOnTime(log + [e], expiry, longestCheck)
    ensures LastCheck(log + [e]) == if e.Checked? then Some(e.at) else LastCheck(log)
  {
    var next := log + [e];
    assert next[..|log|] == log;
    forall i | 0 <= i < |next| ensures OnTime(next[..i], next[i], expiry, longestCheck) {
      if i < |log| { assert next[..i] == log[..i]; }
    }
  }

  /** What a check that started at `check` vouches for, when the clocks were read at `now`, the stream is at
      `clock` and waits for `wait`. */
  lemma WaitIsOnTime(expiry: Time, s: Stream, now: Time, check: Time, wait: Time, longestCheck: Time)
    requires now < expiry && check <= now < check + REVALIDATE_EVERY
    requires s.nextRevalidation == check + REVALIDATE_EVERY
    requires now <= s.clock <= now + longestCheck && (s.clock != now ==> check == now)
    ensures 0.0 < Timeout(Some(expiry), s, now)
    ensures wait < Timeout(Some(expiry), s, now) ==>
      s.clock + wait < check + Vouches(longestCheck) && s.clock + wait < expiry + SHORTEST_WAIT + longestCheck
    ensures wait == Timeout(Some(expiry), s, now) ==>
      s.clock + wait <= check + Vouches(longestCheck) && s.clock + wait <= expiry + SHORTEST_WAIT + longestCheck
  {}

  /** Sending something on time, or nothing at all, keeps the invariant as the clock moves on. */
  lemma SendingKeepsInvariant(expiry: Time, s: Stream, sent: seq<Entry>, next: Stream, longestCheck: Time)
    requires Invariant(s, expiry, longestCheck)
    requires |sent| <= 1 && forall e | e in sent :: !e.Checked? && OnTime(s.log, e, expiry, longestCheck)
    requires next.log == s.log + sent && next.nextRevalidation == s.nextRevalidation && s.clock <= next.clock
    ensures Invariant(next, expiry, longestCheck)
  {
    if sent == [] {
      assert next.log == s.log;
    } else {
      assert sent == [sent[0]];
      Appending(s.log, sent[0], expiry, longestCheck);
    }
  }

  lemma DeliverKeepsInvariant(expiry: Time, s: Stream, now: Time, r: Round, longestCheck: Time)
    requires Invariant(s, expiry, longestCheck) && Plausible(r, longestCheck)
    requires now < expiry && LastCheck(s.log).Some? && LastCheck(s.log).value <= now
    requires now <= s.clock <= now + longestCheck
    requires now < s.nextRevalidation && (s.clock != now ==> LastCheck(s.log).value == now)
    ensures Invariant(Deliver(Some(expiry), s, now, r), expiry, longestCheck)
  {
    var timeout := Timeout(Some(expiry), s, now);
    var check := LastCheck(s.log).value;
    WaitIsOnTime(expiry, s, now, check, 0.0, longestCheck);
    WaitIsOnTime(expiry, s, now, check, timeout, longestCheck);
    if r.arrival.Some? { WaitIsOnTime(expiry, s, now, check, r.arrival.value, longestCheck); }
    hide LogOnTime, Timeout, Vouches, LastCheck, Invariant;
    var sent :=
      if r.ready then [Message(s.clock)]
      else if r.fault == Some(AtWait) then []
      else if r.arrival.Some? && r.arrival.value < timeout then [Message(s.clock + r.arrival.value)]
      else if s.clock + timeout >= s.keepaliveAt then [Keepalive(s.clock + timeout)]
      else [];
    var next := Deliver(Some(expiry), s, now, r);
    assert next.log == s.log + sent && next.nextRevalidation == s.nextRevalidation && s.clock <= next.clock;
    assert forall e | e in sent :: !e.Checked? && OnTime(s.log, e, expiry, longestCheck);
    hide Deliver, OnTime;
    SendingKeepsInvariant(expiry, s, sent, next, longestCheck);
  }

  lemma CheckKeepsInvariant(expiry: Time, s: Stream, now: Time, checked: Stream, longestCheck: Time)
    requires Invariant(s, expiry, longestCheck) && s.clock <= now < expiry && now <= checked.clock
    requires checked.log == s.log + [Checked(now)] && checked.nextRevalidation == now + REVALIDATE_EVERY
    ensures Invariant(checked, expiry, longestCheck) && LastCheck(checked.log) == Some(now)
  {
    Appending(s.log, Checked(now), expiry, longestCheck);
  }

  /** Before the next revalidation is due, an earlier one vouches for the stream. */
  lemma SomeCheckVouches(expiry: Time, s: Stream, now: Time, longestCheck: Time)
    requires Invariant(s, expiry, longestCheck) && s.clock <= now < s.nextRevalidation
    ensures LastCheck(s.log).Some? && LastCheck(s.log).value <= now
    ensures Invariant(s.(clock := now), expiry, longestCheck)
  {}

  lemma TickKeepsInvariant(expiry: Time, s: Stream, r: Round, longestCheck: Time)
    requires Invariant(s, expiry, longestCheck) && Plausible(r, longestCheck)
    ensures Invariant(Tick(Some(expiry), s, r), expiry, longestCheck)
  {
    var now := s.clock + r.pause;
    var next := Tick(Some(expiry), s, r);
    hide Deliver, LogOnTime, Invariant, LastCheck;
    if r.disconnected || r.fault == Some(AtDisconnect) {
      SendingKeepsInvariant(expiry, s, [], next, longestCheck);
    } else if now >= expiry {
      SendingKeepsInvariant(expiry, s, [Expired(now)], next, longestCheck);
    } else if now >= s.nextRevalidation {
      if r.fault == Some(AtCheck) {
        SendingKeepsInvariant(expiry, s, [], next, longestCheck);
      } else if !r.outcome.Current? {
        SendingKeepsInvariant(expiry, s, [Revoked(now + r.duration)], next, longestCheck);
      } else {
        var checked :=
          s.(clock := now + r.duration, nextRevalidation := now + REVALIDATE_EVERY, log := s.log + [Checked(now)]);
        CheckKeepsInvariant(expiry, s, now, checked, longestCheck);
        DeliverKeepsInvariant(expiry, checked, now, r, longestCheck);
      }
    } else {
      SomeCheckVouches(expiry, s, now, longestCheck);
      DeliverKeepsInvariant(expiry, s.(clock := now), now, r, longestCheck);
    }
  }

  lemma {:induction false} RunKeepsInvariant(expiry: Time, s: Stream, rounds: seq<Round>, longestCheck: Time)
    requires Invariant(s, expiry, longestCheck) && AllPlausible(rounds, longestCheck)
    ensures Invariant(Run(Some(expiry), s, rounds), expiry, longestCheck)
    decreases |rounds|
  {
    if rounds != [] && s.open {
      TickKeepsInvariant(expiry, s, rounds[0], longestCheck);
      hide Tick, Invariant;
      RunKeepsInvariant(expiry, Tick(Some(expiry), s, rounds[0]), rounds[1..], longestCheck);
    }
  }

  /** Over every run: nothing is sent before a successful check, nothing at or after expiry + 0.1 + d,
      and nothing 15.1 seconds after the check that vouches for it began, or d + 0.5 if that is longer. */
  lemma AuthorizationDeadlines(expiry: Time, start: Time, rounds: seq<Round>, longestCheck: Time)
    requires 0.0 <= start && AllPlausible(rounds, longestCheck)
    ensures LogOnTime(Run(Some(expiry), Opened(start), rounds).log, expiry, longestCheck)
    ensures longestCheck <= 14.6 ==> Vouches(longestCheck) == 15.1
  {
    RunKeepsInvariant(expiry, Opened(start), rounds, longestCheck);
  }

  lemma LastCheckIsLogged(log: seq<Entry>)
    ensures LastCheck(log).Some? ==> exists j :: 0 <= j < |log| && log[j] == Checked(LastCheck(log).value)
  {
    if log == [] {
    } else if log[|log| - 1].Checked? {
      assert log[|log| - 1] == Checked(LastCheck(log).value);
    } else {
      LastCheckIsLogged(log[..|log| - 1]);
      if LastCheck(log).Some? {
        var j :| 0 <= j < |log| - 1 && log[..|log| - 1][j] == Checked(LastCheck(log).value);
        assert log[j] == Checked(LastCheck(log).value);
      }
    }
  }

  /** Revocation takes hold: when no check that starts at or after some moment succeeds, no message is sent
      15.1 seconds past that moment or later. */
  lemma RevocationTakesHold(expiry: Time, start: Time, rounds: seq<Round>, longestCheck: Time, revoked: Time,
                            log: seq<Entry>)
    requires 0.0 <= start && AllPlausible(rounds, longestCheck) && longestCheck <= 14.6
    requires log == Run(Some(expiry), Opened(start), rounds).log
    requires forall i | 0 <= i < |log| && log[i].Checked? :: log[i].at < revoked
    ensures forall i | 0 <= i < |log| && log[i].Message? :: log[i].at < revoked + 15.1
  {
    AuthorizationDeadlines(expiry, start, rounds, longestCheck);
    hide Run;
    forall i | 0 <= i < |log| && log[i].Message? ensures log[i].at < revoked + 15.1 {
      assert OnTime(log[..i], log[i], expiry, longestCheck);
      LastCheckIsLogged(log[..i]);
      var check := LastCheck(log[..i]).value;
      var j :| 0 <= j < i && log[..i][j] == Checked(check);
      assert log[j] == Checked(check);
    }
  }

  /** The bound on the check time is exact: any longer check lets a message through too late. */
  lemma LongerChecksOverrun(longestCheck: Time)
    requires 14.6 < longestCheck
    ensures exists r :: Plausible(r, longestCheck)
              && Run(Some(100.0 + longestCheck), Opened(0.0), [r]).log
                 == [Checked(0.0), Message(Max(15.1, longestCheck))]
  {
    var wait := Max(15.1, longestCheck) - longestCheck;
    var r := Round(false, 0.0, Current, longestCheck, false, Some(wait), 0.0, None);
    assert Run(Some(100.0 + longestCheck), Opened(0.0), [r]) == Tick(Some(100.0 + longestCheck), Opened(0.0), r);
    assert Run(Some(100.0 + longestCheck), Opened(0.0), [r]).log
        == [Checked(0.0)] + [Message(Max(15.1, longestCheck))];
  }

  /** So is the one on expiry: a check that starts just before it lets a message out as late as one likes
      below expiry + 0.1 + d. */
  lemma ExpiryBoundIsTight(expiry: Time, longestCheck: Time, early: Time)
    requires 0.0 <= longestCheck && 0.0 < early < 0.1 && 0.1 <= expiry
    ensures exists r, at :: Plausible(r, longestCheck)
              && Message(at) in Run(Some(expiry), Opened(0.0), [r]).log
              && expiry + SHORTEST_WAIT + longestCheck - early <= at
  {
    var now := expiry - early / 2.0;
    var wait := SHORTEST_WAIT - early / 2.0;
    var r := Round(false, now, Current, longestCheck, false, Some(wait), 0.0, None);
    var begun := Opened(0.0);
    var s := begun.(clock := now + longestCheck, nextRevalidation := now + REVALIDATE_EVERY, log := [] + [Checked(now)]);
    var end := Tick(Some(expiry), begun, r);
    assert Run(Some(expiry), begun, [r]) == end;
    assert end == Deliver(Some(expiry), s, now, r);
    assert end.log == s.log + [Message(now + longestCheck + wait)];
    assert Message(now + longestCheck + wait) in end.log;
  }

  // ---------- the event bus and the generator ----------

  function Occurrences(channels: seq<Channel>, c: Channel): nat {
    if channels == [] then 0
    else Occurrences(channels[..|channels| - 1], c) + if channels[|channels| - 1] == c then 1 else 0
  }

  type Channels = map<Channel, set<Queue>>

  function Listening(channels: Channels, c: Channel): set<Queue> { if c in channels then channels[c] else {} }

  class EventBus {
    var channels: Channels
    var nextQueue: Queue

    constructor ()
      ensures channels == map[] && Valid()
    {
      channels := map[];
      nextQueue := 0;
    }

    function Subscribers(c: Channel): set<Queue>
      reads this
    { Listening(channels, c) }

    ghost predicate Valid()
      reads this
    { forall c | c in channels :: forall q | q in channels[c] :: q < nextQueue }

    method Subscribe(c: Channel) returns (queue: Option<Queue>)
      requires Valid()
      modifies this
      ensures Valid()
      ensures queue.None? <==> |old(Subscribers(c))| >= MAX_SUBSCRIBERS
      ensures queue.Some? ==> queue.value == old(nextQueue) && nextQueue == old(nextQueue) + 1
      ensures queue.None? ==> nextQueue == old(nextQueue)
      ensures forall x :: Subscribers(x)
                == if queue.Some? && x == c then old(Subscribers(x)) + {queue.value} else old(Subscribers(x))
    {
      if c !in channels { channels := channels[c := {}]; }
      if |channels[c]| >= MAX_SUBSCRIBERS { return None; }
      queue := Some(nextQueue);
      nextQueue := nextQueue + 1;
      channels := channels[c := channels[c] + {queue.value}];
    }

    /** The end of publish: queues that overflowed leave the channel; the entry itself stays. */
    method Discard(c: Channel, dead: set<Queue>)
      requires Valid()
      modifies this
      ensures Valid() && nextQueue == old(nextQueue)
      ensures forall x :: Subscribers(x) == if x == c then old(Subscribers(x)) - dead else old(Subscribers(x))
    {
      channels := channels[c := Subscribers(c) - dead];
    }

    method Unsubscribe(c: Channel, queue: Queue)
      requires Valid()
      modifies this
      ensures Valid() && nextQueue == old(nextQueue)
      ensures forall x :: Subscribers(x) == if x == c then old(Subscribers(x)) - {queue} else old(Subscribers(x))
    {
      if c !in channels { return; }
      channels := channels[c := channels[c] - {queue}];
      if channels[c] == {} { channels := channels - {c}; }
    }
  }

  /** What other streams and publishers do to the bus meanwhile: publishing drops the queues that overflowed. */
  datatype Action = Joins(channel: Channel) | Quits(channel: Channel, queue: Queue) | Drops(channel: Channel, dead: set<Queue>)

  predicate Takes(a: Action, c: Channel, q: Queue) {
    (a.Quits? && a.channel == c && a.queue == q) || (a.Drops? && a.channel == c && q in a.dead)
  }

  /** No action of the list removes this queue from this channel. */
  predicate Spares(actions: seq<Action>, c: Channel, q: Queue) {
    forall i | 0 <= i < |actions| :: !Takes(actions[i], c, q)
  }

  predicate AllSpare(others: seq<seq<Action>>, c: Channel, q: Queue) {
    forall i | 0 <= i < |others| :: Spares(others[i], c, q)
  }

  /** From one state of the bus to a later one: what the actions spare stays, and only new queues come in. */
  ghost predicate Evolves(was: Channels, next: Queue, now: Channels, actions: seq<seq<Action>>) {
    && (forall c: Channel, q: Queue | q in Listening(was, c) && AllSpare(actions, c, q) :: q in Listening(now, c))
    && (forall c: Channel, q: Queue | q in Listening(now, c) :: q in Listening(was, c) || next <= q)
  }

  lemma EvolvesTrivially(was: Channels, next: Queue, actions: seq<seq<Action>>)
    ensures Evolves(was, next, was, actions)
  {}

  lemma EvolvesOn(was: Channels, next: Queue, middle: Channels, later: Queue, now: Channels,
                  actions: seq<seq<Action>>, latest: seq<seq<Action>>)
    requires Evolves(was, next, middle, actions) && Evolves(middle, later, now, latest) && next <= later
    requires forall c: Channel, q: Queue | AllSpare(actions, c, q) :: AllSpare(latest, c, q)
    ensures Evolves(was, next, now, actions)
  {
    hide AllSpare;
  }

  method Act(bus: EventBus, a: Action)
    requires bus.Valid()
    modifies bus
    ensures bus.Valid() && old(bus.nextQueue) <= bus.nextQueue
    ensures Evolves(old(bus.channels), old(bus.nextQueue), bus.channels, [[a]])
  {
    ghost var was := bus.channels;
    match a
    case Joins(c) =>
      var queue := bus.Subscribe(c);
      assert forall x :: Listening(was, x) <= bus.Subscribers(x);
    case Quits(c, q) =>
      bus.Unsubscribe(c, q);
      assert forall x :: bus.Subscribers(x) <= Listening(was, x);
      OneAction(a);
    case Drops(c, dead) =>
      bus.Discard(c, dead);
      assert forall x :: bus.Subscribers(x) <= Listening(was, x);
      OneAction(a);
  }

  lemma OneAction(a: Action)
    ensures forall c: Channel, q: Queue :: AllSpare([[a]], c, q) ==> !Takes(a, c, q)
  {
    forall c: Channel, q: Queue | AllSpare([[a]], c, q) ensures !Takes(a, c, q) {
      assert Spares([[a]][0], c, q);
      assert !Takes([a][0], c, q);
    }
  }

  method ActAll(bus: EventBus, actions: seq<Action>)
    requires bus.Valid()
    modifies bus
    ensures bus.Valid() && old(bus.nextQueue) <= bus.nextQueue
    ensures actions == [] ==> bus.nextQueue == old(bus.nextQueue)
    ensures Evolves(old(bus.channels), old(bus.nextQueue), bus.channels, [actions])
  {
    EvolvesTrivially(bus.channels, bus.nextQueue, [actions]);
    var i := 0;
    while i < |actions|
      invariant 0 <= i <= |actions| && bus.Valid() && old(bus.nextQueue) <= bus.nextQueue
      invariant i == 0 ==> bus.nextQueue == old(bus.nextQueue)
      invariant Evolves(old(bus.channels), old(bus.nextQueue), bus.channels, [actions])
    {
      ghost var middle, later := bus.channels, bus.nextQueue;
      Act(bus, actions[i]);
      SparesOne(actions, i);
      hide Evolves;
      EvolvesOn(old(bus.channels), old(bus.nextQueue), middle, later, bus.channels, [actions], [[actions[i]]]);
      i := i + 1;
    }
  }

  lemma SparesOne(actions: seq<Action>, i: nat)
    requires i < |actions|
    ensures forall c: Channel, q: Queue | AllSpare([actions], c, q) :: AllSpare([[actions[i]]], c, q)
  {
    forall c: Channel, q: Queue | AllSpare([actions], c, q) ensures AllSpare([[actions[i]]], c, q) {
      assert Spares([actions][0], c, q);
    }
  }

  /** The subscriptions a list of channels gets when queues are numbered from `first`. */
  function Numbered(channels: seq<Channel>, first: Queue): seq<(Channel, Queue)> {
    seq(|channels|, i requires 0 <= i < |channels| => (channels[i], first + i))
  }

  /** Queues first..first + n subscribed on top of what was there. */
  ghost predicate Added(now: set<Queue>, was: set<Queue>, channels: seq<Channel>, first: Queue, c: Channel) {
    && was <= now
    && (forall q | q in now :: q in was || (first <= q < first + |channels| && channels[q - first] == c))
    && (forall i | 0 <= i < |channels| && channels[i] == c :: first + i in now)
    && |now| == |was| + Occurrences(channels, c)
  }

  /** Some channel is already full when its turn comes. */
  ghost predicate Overfull(bus: EventBus, channels: seq<Channel>)
    reads bus
  {
    exists i | 0 <= i < |channels| ::
      |bus.Subscribers(channels[i])| + Occurrences(channels[..i], channels[i]) >= MAX_SUBSCRIBERS
  }

  lemma OneMore(now: set<Queue>, was: set<Queue>, channels: seq<Channel>, first: Queue, c: Channel,
                next: Channel, after: set<Queue>)
    requires Added(now, was, channels, first, c)
    requires forall q | q in now :: q < first + |channels|
    requires after == if c == next then now + {first + |channels|} else now
    ensures Added(after, was, channels + [next], first, c)
  {
    assert (channels + [next])[..|channels|] == channels;
  }

  lemma NoneYet(was: set<Queue>, first: Queue, c: Channel)
    ensures Added(was, was, [], first, c)
  {}

  lemma HowMany(now: set<Queue>, was: set<Queue>, channels: seq<Channel>, first: Queue, c: Channel)
    requires Added(now, was, channels, first, c)
    ensures |now| == |was| + Occurrences(channels, c)
  {}

  /** The bus holds what it held plus one queue for each of the channels so far. */
  ghost predicate AllAdded(bus: EventBus, was: Channels, channels: seq<Channel>, first: Queue)
    reads bus
  {
    && bus.Valid() && bus.nextQueue == first + |channels|
    && forall c :: Added(bus.Subscribers(c), Listening(was, c), channels, first, c)
  }

  method SubscribeNext(bus: EventBus, next: Channel, ghost was: Channels, ghost done: seq<Channel>, ghost first: Queue)
    returns (queue: Option<Queue>)
    requires AllAdded(bus, was, done, first)
    modifies bus
    ensures queue.None? <==> |Listening(was, next)| + Occurrences(done, next) >= MAX_SUBSCRIBERS
    ensures queue.None? ==> AllAdded(bus, was, done, first)
    ensures queue.Some? ==> queue.value == first + |done| && AllAdded(bus, was, done + [next], first)
  {
    hide Added, Occurrences;
    HowMany(bus.Subscribers(next), Listening(was, next), done, first, next);
    queue := bus.Subscribe(next);
    forall c
      ensures Added(bus.Subscribers(c), Listening(was, c), if queue.Some? then done + [next] else done, first, c)
    {
      assert Added(old(bus.Subscribers(c)), Listening(was, c), done, first, c);
      if queue.Some? { OneMore(old(bus.Subscribers(c)), Listening(was, c), done, first, c, next, bus.Subscribers(c)); }
    }
  }

  /** The subscriptions made before the stream starts, or before the first full channel. */
  method SubscribeAll(bus: EventBus, channels: seq<Channel>)
    returns (subscriptions: seq<(Channel, Queue)>, refused: bool)
    requires bus.Valid()
    modifies bus
    ensures |subscriptions| <= |channels|
    ensures refused == old(Overfull(bus, channels))
    ensures !refused ==> |subscriptions| == |channels|
    ensures subscriptions == Numbered(channels[..|subscriptions|], old(bus.nextQueue))
    ensures AllAdded(bus, old(bus.channels), channels[..|subscriptions|], old(bus.nextQueue))
  {
    hide Added, Occurrences;
    subscriptions := [];
    forall c ensures Added(bus.Subscribers(c), bus.Subscribers(c), channels[..0], bus.nextQueue, c) {
      NoneYet(bus.Subscribers(c), bus.nextQueue, c);
    }
    ghost var was, first := bus.channels, bus.nextQueue;
    while |subscriptions| < |channels|
      invariant |subscriptions| <= |channels|
      invariant subscriptions == Numbered(channels[..|subscriptions|], first)
      invariant AllAdded(bus, was, channels[..|subscriptions|], first)
      invariant forall i | 0 <= i < |subscriptions| ::
        |Listening(was, channels[i])| + Occurrences(channels[..i], channels[i]) < MAX_SUBSCRIBERS
    {
      var k, next := |subscriptions|, channels[|subscriptions|];
      assert channels[..k + 1] == channels[..k] + [next];
      hide AllAdded;
      var queue := SubscribeNext(bus, next, was, channels[..k], first);
      if queue.None? { return subscriptions, true; }
      subscriptions := subscriptions + [(next, queue.value)];
    }
    refused := false;
  }

  /** The loop, with what others do to the bus during each round. */
  method Follow(bus: EventBus, p: Principal, start: Time, rounds: seq<Round>, others: seq<seq<Action>>)
    returns (log: seq<Entry>)
    requires bus.Valid()
    modifies bus
    ensures bus.Valid() && old(bus.nextQueue) <= bus.nextQueue
    ensures Idle(others) ==> bus.nextQueue == old(bus.nextQueue)
    ensures Evolves(old(bus.channels), old(bus.nextQueue), bus.channels, others)
    ensures log == Run(p, Opened(start), rounds).log
  {
    hide Tick;
    EvolvesTrivially(bus.channels, bus.nextQueue, others);
    var s := Opened(start);
    var i := 0;
    while i < |rounds| && s.open
      invariant 0 <= i <= |rounds|
      invariant Run(p, Opened(start), rounds) == Run(p, s, rounds[i..])
      invariant bus.Valid() && old(bus.nextQueue) <= bus.nextQueue
      invariant Idle(others) ==> bus.nextQueue == old(bus.nextQueue)
      invariant Evolves(old(bus.channels), old(bus.nextQueue), bus.channels, others)
    {
      if i < |others| {
        ghost var middle, later := bus.channels, bus.nextQueue;
        ActAll(bus, others[i]);
        assert forall c: Channel, q: Queue | AllSpare(others, c, q) :: AllSpare([others[i]], c, q);
        hide Evolves;
        EvolvesOn(old(bus.channels), old(bus.nextQueue), middle, later, bus.channels, others, [others[i]]);
      }
      assert rounds[i..][1..] == rounds[i + 1..];
      s := Tick(p, s, rounds[i]);
      i := i + 1;
    }
    log := s.log;
  }

  /** The client is told of the refusal; others go on meanwhile. */
  method WhileRefusing(bus: EventBus, others: seq<seq<Action>>)
    requires bus.Valid()
    modifies bus
    ensures bus.Valid() && old(bus.nextQueue) <= bus.nextQueue
    ensures Idle(others) ==> bus.nextQueue == old(bus.nextQueue)
    ensures Evolves(old(bus.channels), old(bus.nextQueue), bus.channels, others)
  {
    EvolvesTrivially(bus.channels, bus.nextQueue, others);
    if others != [] {
      ActAll(bus, others[0]);
      assert forall c: Channel, q: Queue | AllSpare(others, c, q) :: AllSpare([others[0]], c, q);
      hide Evolves;
      EvolvesOn(old(bus.channels), old(bus.nextQueue), old(bus.channels), old(bus.nextQueue), bus.channels,
        others, [others[0]]);
    }
  }

  /** Nobody else acts. */
  predicate Idle(others: seq<seq<Action>>) { forall i | 0 <= i < |others| :: others[i] == [] }

  /** The finally clause. */
  method Release(bus: EventBus, subscriptions: seq<(Channel, Queue)>) returns (returned: seq<(Channel, Queue)>)
    requires bus.Valid()
    modifies bus
    ensures bus.Valid() && bus.nextQueue == old(bus.nextQueue)
    ensures returned == subscriptions
    ensures forall c, q :: q in bus.Subscribers(c) <==> q in old(bus.Subscribers(c)) && (c, q) !in subscriptions
  {
    returned := [];
    while |returned| < |subscriptions|
      invariant bus.Valid() && bus.nextQueue == old(bus.nextQueue)
      invariant returned <= subscriptions
      invariant forall c, q :: q in bus.Subscribers(c) <==> q in old(bus.Subscribers(c)) && (c, q) !in returned
    {
      var next := subscriptions[|returned|];
      bus.Unsubscribe(next.0, next.1);
      returned := returned + [next];
    }
  }

  /** What is left when our queues have gone: nothing of ours, and of the rest what others left and brought. */
  lemma NothingLeft(was: Channels, first: Queue, channels: seq<Channel>, middle: Channels, now: Channels,
                    left: Channels, others: seq<seq<Action>>)
    requires forall c :: Added(Listening(middle, c), Listening(was, c), channels, first, c)
    requires forall c: Channel, q: Queue | q in Listening(was, c) :: q < first
    requires Evolves(middle, first + |channels|, now, others)
    requires forall c: Channel, q: Queue ::
      q in Listening(left, c) <==> q in Listening(now, c) && (c, q) !in Numbered(channels, first)
    ensures Evolves(was, first + |channels|, left, others)
    ensures forall c: Channel, q: Queue | first <= q < first + |channels| :: q !in Listening(left, c)
  {
    var ours := Numbered(channels, first);
    hide AllSpare;
    forall c: Channel, q: Queue | q in Listening(left, c) ensures q in Listening(was, c) || first + |channels| <= q {
      assert Added(Listening(middle, c), Listening(was, c), channels, first, c);
      assert first <= q < first + |channels| && channels[q - first] == c ==> ours[q - first] == (c, q);
    }
    forall c: Channel, q: Queue | q in Listening(was, c) && AllSpare(others, c, q) ensures q in Listening(left, c) {
      assert Added(Listening(middle, c), Listening(was, c), channels, first, c);
    }
  }

  /** The generator.  On every way out (client gone, expiry, revocation, refusal, cancellation or exception at
      any await or yield), and whatever other streams and publishers do to the bus in between, each
      subscription it made is returned exactly once and none of its queues is left anywhere; everybody else's
      queues stay unless others take them away, and if nobody else acts the bus is as before. */
  method Generate(bus: EventBus, channels: seq<Channel>, p: Principal, start: Time, rounds: seq<Round>,
                  others: seq<seq<Action>>)
    returns (log: seq<Entry>, returned: seq<(Channel, Queue)>)
    requires bus.Valid() && channels != []
    modifies bus
    ensures bus.Valid()
    ensures |returned| <= |channels| && returned == Numbered(channels[..|returned|], old(bus.nextQueue))
    ensures !old(Overfull(bus, channels)) ==> |returned| == |channels|
    ensures log == if old(Overfull(bus, channels)) then [Refused] else Run(p, Opened(start), rounds).log
    ensures forall c, q: Queue | old(bus.nextQueue) <= q < old(bus.nextQueue) + |returned| :: q !in bus.Subscribers(c)
    ensures Evolves(old(bus.channels), old(bus.nextQueue) + |returned|, bus.channels, others)
    ensures Idle(others) ==> forall c :: bus.Subscribers(c) == old(bus.Subscribers(c))
  {
    ghost var was, first := bus.channels, bus.nextQueue;
    assert forall c: Channel, q: Queue | q in Listening(was, c) :: q < first;
    var subscriptions, refused := SubscribeAll(bus, channels);
    ghost var middle, ours := bus.channels, channels[..|subscriptions|];
    assert forall c :: Added(Listening(middle, c), Listening(was, c), ours, first, c);
    EvolvesTrivially(middle, first + |ours|, others);
    hide Added, Evolves, Run, Overfull, AllSpare;
    if refused {
      log := [Refused];
      WhileRefusing(bus, others);
    } else {
      log := Follow(bus, p, start, rounds, others);
    }
    ghost var now := bus.channels;
    returned := Release(bus, subscriptions);
    assert forall c: Channel, q: Queue ::
      q in bus.Subscribers(c) <==> q in Listening(now, c) && (c, q) !in Numbered(ours, first);
    NothingLeft(was, first, ours, middle, now, bus.channels, others);
    if Idle(others) { IdleRestores(bus, was, first + |ours|, others); }
  }

  lemma IdleRestores(bus: EventBus, was: Channels, next: Queue, others: seq<seq<Action>>)
    requires bus.Valid() && bus.nextQueue == next && Idle(others) && Evolves(was, next, bus.channels, others)
    ensures forall c :: bus.Subscribers(c) == Listening(was, c)
  {
    assert forall c: Channel, q: Queue :: AllSpare(others, c, q);
  }
}
