/** The onboarding alert monitor: it reconciles what needs attention with what it already reported, delivering
    as it goes, and records its state only when everything was delivered. */
module OnboardingAttention {
  import opened Sql

  type Key = string
  type Stage = string

  /** A candidate as classified at this run; None needs no attention. */
  datatype Candidate = Candidate(key: Key, attention: Option<Stage>)

  datatype Entry = Entry(stage: Stage, updatedAt: int, silent: bool)

  type State = map<Key, Entry>

  datatype Message = Alert(key: Key, stage: Stage) | Recovery(key: Key)

  // ---------- one candidate ----------

  function Prior(previous: State, k: Key): Option<Entry> { if k in previous then Some(previous[k]) else None }

  /** What one candidate makes due. */
  function Due(previous: State, c: Candidate): Option<Message> {
    var prior := Prior(previous, c.key);
    match c.attention
    case None => if prior.Some? && !prior.value.silent then Some(Recovery(c.key)) else None
    case Some(stage) => if prior.Some? && prior.value.stage == stage then None else Some(Alert(c.key, stage))
  }

  function Updated(previous: State, current: State, c: Candidate, now: int): State {
    var prior := Prior(previous, c.key);
    match c.attention
    case None => if prior.Some? then current - {c.key} else current
    case Some(stage) =>
      if prior.Some? && prior.value.stage == stage then current else current[c.key := Entry(stage, now, false)]
  }

  // ---------- a whole pass ----------

  function DueList(previous: State, c: Candidate): seq<Message> {
    var due := Due(previous, c);
    if due.Some? then [due.value] else []
  }

  function Messages(previous: State, candidates: seq<Candidate>): seq<Message> {
    if candidates == [] then []
    else Messages(previous, candidates[..|candidates| - 1]) + DueList(previous, candidates[|candidates| - 1])
  }

  function Reconciled(previous: State, candidates: seq<Candidate>, now: int): State {
    if candidates == [] then previous
    else
      Updated(previous, Reconciled(previous, candidates[..|candidates| - 1], now), candidates[|candidates| - 1], now)
  }

  lemma MessagesGrow(previous: State, candidates: seq<Candidate>, i: nat)
    requires i <= |candidates|
    ensures Messages(previous, candidates[..i]) <= Messages(previous, candidates)
    decreases |candidates| - i
  {
    if i < |candidates| {
      assert candidates[..i + 1][..i] == candidates[..i];
      MessagesGrow(previous, candidates, i + 1);
    } else {
      assert candidates[..i] == candidates;
    }
  }

  lemma PassGrows(previous: State, candidates: seq<Candidate>, now: int, i: nat)
    requires i < |candidates|
    ensures var before, after, c := candidates[..i], candidates[..i + 1], candidates[i];
            && Messages(previous, after) == Messages(previous, before) + DueList(previous, c)
            && Reconciled(previous, after, now) == Updated(previous, Reconciled(previous, before, now), c, now)
            && Messages(previous, after) <= Messages(previous, candidates)
  {
    assert candidates[..i + 1][..i] == candidates[..i];
    MessagesGrow(previous, candidates, i + 1);
    hide Updated, DueList;
  }

  /** The loop.  Delivery number `broken`, counted from 0, fails and ends the pass with nothing but the earlier
      messages sent; a pass with fewer deliveries completes. */
  method Reconcile(candidates: seq<Candidate>, previous: State, now: int, broken: Option<nat>)
    returns (current: Option<State>, sent: seq<Message>)
    ensures var due := Messages(previous, candidates);
            if broken.Some? && broken.value < |due|
            then current == None && sent == due[..broken.value]
            else current == Some(Reconciled(previous, candidates, now)) && sent == due
  {
    var state := previous;
    sent := [];
    var i := 0;
    while i < |candidates|
      invariant 0 <= i <= |candidates|
      invariant state == Reconciled(previous, candidates[..i], now)
      invariant sent == Messages(previous, candidates[..i])
      invariant broken.Some? ==> |sent| <= broken.value
    {
      var c := candidates[i];
      PassGrows(previous, candidates, now, i);
      hide Messages, Reconciled;
      var prior := Prior(previous, c.key);
      if c.attention.None? {
        if prior.Some? {
          if !prior.value.silent {
            if broken == Some(|sent|) { return None, sent; }
            sent := sent + [Recovery(c.key)];
          }
          state := state - {c.key};
        }
      } else if !(prior.Some? && prior.value.stage == c.attention.value) {
        if broken == Some(|sent|) { return None, sent; }
        sent := sent + [Alert(c.key, c.attention.value)];
        state := state[c.key := Entry(c.attention.value, now, false)];
      }
      i := i + 1;
    }
    assert candidates[..|candidates|] == candidates;
    current := Some(state);
  }

  function Baseline(candidates: seq<Candidate>, now: int): State {
    if candidates == [] then map[]
    else
      var c := candidates[|candidates| - 1];
      var before := Baseline(candidates[..|candidates| - 1], now);
      if c.attention.Some? then before[c.key := Entry(c.attention.value, now, true)] else before
  }

  method Bootstrap(candidates: seq<Candidate>, now: int) returns (state: State)
    ensures state == Baseline(candidates, now)
    ensures forall k | k in state :: state[k].silent && state[k].updatedAt == now
    ensures forall k :: k in state <==>
              exists i | 0 <= i < |candidates| :: candidates[i].key == k && candidates[i].attention.Some?
  {
    state := map[];
    var i := 0;
    while i < |candidates|
      invariant 0 <= i <= |candidates|
      invariant state == Baseline(candidates[..i], now)
      invariant forall k | k in state :: state[k].silent && state[k].updatedAt == now
      invariant forall k :: k in state <==>
                  exists j | 0 <= j < i :: candidates[j].key == k && candidates[j].attention.Some?
    {
      assert candidates[..i + 1][..i] == candidates[..i];
      var c := candidates[i];
      if c.attention.Some? { state := state[c.key := Entry(c.attention.value, now, true)]; }
      i := i + 1;
    }
    assert candidates[..|candidates|] == candidates;
  }

  // ---------- one key at a time ----------

  predicate UniqueKeys(candidates: seq<Candidate>) {
    forall i, j | 0 <= i < j < |candidates| :: candidates[i].key != candidates[j].key
  }

  predicate Seen(candidates: seq<Candidate>, k: Key) { exists i | 0 <= i < |candidates| :: candidates[i].key == k }

  function About(messages: seq<Message>, k: Key): seq<Message> {
    if messages == [] then []
    else About(messages[..|messages| - 1], k)
         + if messages[|messages| - 1].key == k then [messages[|messages| - 1]] else []
  }

  lemma {:induction false} AboutAppends(a: seq<Message>, b: seq<Message>, k: Key)
    ensures About(a + b, k) == About(a, k) + About(b, k)
    decreases |b|
  {
    if b == [] {
      assert a + b == a;
    } else {
      assert (a + b)[..|a + b| - 1] == a + b[..|b| - 1];
      AboutAppends(a, b[..|b| - 1], k);
    }
  }

  lemma NothingAbout(k: Key)
    ensures About([], k) == []
  {}

  lemma AboutOne(m: Message, k: Key)
    ensures About([m], k) == if m.key == k then [m] else []
  {
    assert [m][..0] == [];
  }

  lemma UpdatesOnlyItsKey(previous: State, current: State, c: Candidate, now: int, k: Key)
    ensures c.key != k ==> Prior(Updated(previous, current, c, now), k) == Prior(current, k)
    ensures Prior(current, k) == Prior(previous, k) ==>
      Prior(Updated(previous, current, c, now), k) == Prior(Updated(previous, previous, c, now), k)
  {}

  lemma OneCandidate(previous: State, current: State, c: Candidate, now: int, k: Key)
    ensures About(DueList(previous, c), k) == if c.key == k then DueList(previous, c) else []
    ensures c.key != k ==> Prior(Updated(previous, current, c, now), k) == Prior(current, k)
    ensures Prior(current, k) == Prior(previous, k) ==>
      Prior(Updated(previous, current, c, now), k) == Prior(Updated(previous, previous, c, now), k)
  {
    var due := Due(previous, c);
    assert due.Some? ==> due.value.key == c.key;
    UpdatesOnlyItsKey(previous, current, c, now, k);
    hide Updated, Prior, Due, About;
    NothingAbout(k);
    if due.Some? { AboutOne(due.value, k); }
  }

  lemma {:induction false} UnseenKey(previous: State, candidates: seq<Candidate>, now: int, k: Key)
    requires !Seen(candidates, k)
    ensures About(Messages(previous, candidates), k) == []
    ensures Prior(Reconciled(previous, candidates, now), k) == Prior(previous, k)
  {
    hide Updated, DueList, Prior, About;
    if candidates == [] {
      NothingAbout(k);
    } else {
      var before, c := candidates[..|candidates| - 1], candidates[|candidates| - 1];
      assert c.key != k;
      forall i | 0 <= i < |before| ensures before[i].key != k { assert candidates[i].key != k; }
      UnseenKey(previous, before, now, k);
      AboutAppends(Messages(previous, before), DueList(previous, c), k);
      OneCandidate(previous, Reconciled(previous, before, now), c, now, k);
    }
  }

  /** With unique keys a pass treats each candidate by itself: at most one message about it, and its entry
      depends on nothing else. */
  lemma {:induction false} SeenKey(previous: State, candidates: seq<Candidate>, now: int, i: nat)
    requires UniqueKeys(candidates) && i < |candidates|
    ensures var c := candidates[i];
            && About(Messages(previous, candidates), c.key) == DueList(previous, c)
            && Prior(Reconciled(previous, candidates, now), c.key) == Prior(Updated(previous, previous, c, now), c.key)
  {
    hide Updated, DueList, Prior, About;
    var before, last := candidates[..|candidates| - 1], candidates[|candidates| - 1];
    var c := candidates[i];
    AboutAppends(Messages(previous, before), DueList(previous, last), c.key);
    OneCandidate(previous, Reconciled(previous, before, now), last, now, c.key);
    if i == |candidates| - 1 {
      UnseenKey(previous, before, now, c.key);
    } else {
      assert last.key != c.key;
      SeenKey(previous, before, now, i);
    }
  }

  /** Reconciling the same classification again delivers nothing and changes nothing. */
  lemma RerunIsQuiet(previous: State, candidates: seq<Candidate>, now: int, later: int)
    requires UniqueKeys(candidates)
    ensures var current := Reconciled(previous, candidates, now);
            Messages(current, candidates) == [] && Reconciled(current, candidates, later) == current
  {
    var current := Reconciled(previous, candidates, now);
    forall i | 0 <= i < |candidates| ensures Settled(current, candidates[i]) {
      SeenKey(previous, candidates, now, i);
    }
    SettledIsQuiet(current, candidates, later);
  }

  /** The state already says what the classification says. */
  predicate Settled(state: State, c: Candidate) {
    match c.attention
    case None => c.key !in state
    case Some(stage) => c.key in state && state[c.key].stage == stage
  }

  lemma {:induction false} SettledIsQuiet(state: State, candidates: seq<Candidate>, now: int)
    requires forall i | 0 <= i < |candidates| :: Settled(state, candidates[i])
    ensures Messages(state, candidates) == [] && Reconciled(state, candidates, now) == state
  {
    if candidates != [] {
      assert Settled(state, candidates[|candidates| - 1]);
      SettledIsQuiet(state, candidates[..|candidates| - 1], now);
    }
  }

  lemma {:induction false} BaselineSettles(candidates: seq<Candidate>, now: int, i: nat)
    requires UniqueKeys(candidates) && i < |candidates|
    ensures Settled(Baseline(candidates, now), candidates[i])
  {
    var before, last := candidates[..|candidates| - 1], candidates[|candidates| - 1];
    if i < |before| {
      assert before[i] == candidates[i] && last.key != candidates[i].key;
      BaselineSettles(before, now, i);
    } else {
      BaselineOnlySeen(before, now, last.key);
    }
  }

  lemma {:induction false} BaselineOnlySeen(candidates: seq<Candidate>, now: int, k: Key)
    requires forall i | 0 <= i < |candidates| :: candidates[i].key != k
    ensures k !in Baseline(candidates, now)
  {
    if candidates != [] { BaselineOnlySeen(candidates[..|candidates| - 1], now, k); }
  }

  /** The silent baseline covers what it was taken from: a run on the same classification sends nothing and
      records nothing. */
  lemma BaselineIsQuiet(candidates: seq<Candidate>, now: int, later: int)
    requires UniqueKeys(candidates)
    ensures var baseline := Baseline(candidates, now);
            Messages(baseline, candidates) == [] && Reconciled(baseline, candidates, later) == baseline
  {
    forall i | 0 <= i < |candidates| ensures Settled(Baseline(candidates, now), candidates[i]) {
      BaselineSettles(candidates, now, i);
    }
    SettledIsQuiet(Baseline(candidates, now), candidates, later);
  }

  // ---------- the grammar of one key's messages ----------

  /** Quiet between groups; Open inside a group whose latest alert named this stage. */
  datatype Group = Quiet | Open(stage: Stage)

  function Next(g: Group, m: Message): Option<Group> {
    match m
    case Alert(_, stage) => if g == Open(stage) then None else Some(Open(stage))
    case Recovery(_) => if g.Open? then Some(Quiet) else None
  }

  /** None when the messages break the grammar. */
  function Parse(g: Group, messages: seq<Message>): Option<Group> {
    if messages == [] then Some(g)
    else
      match Parse(g, messages[..|messages| - 1])
      case None => None
      case Some(h) => Next(h, messages[|messages| - 1])
  }

  /** Alert groups closed by one recovery each, no alert repeating the stage of the one before it. */
  predicate WellFormed(messages: seq<Message>) {
    && (messages != [] ==> messages[0].Alert?)
    && forall i | 0 < i < |messages| ::
         match (messages[i - 1], messages[i])
         case (Alert(_, s), Alert(_, t)) => s != t
         case (Recovery(_), Recovery(_)) => false
         case _ => true
  }

  /** The automaton accepts exactly the well-formed sequences, and remembers only the last message. */
  lemma {:induction false} ParseIsWellFormed(messages: seq<Message>)
    ensures Parse(Quiet, messages).Some? <==> WellFormed(messages)
    ensures WellFormed(messages) ==>
      Parse(Quiet, messages).value ==
        if messages != [] && messages[|messages| - 1].Alert? then Open(messages[|messages| - 1].stage) else Quiet
  {
    if messages != [] {
      var before := messages[..|messages| - 1];
      ParseIsWellFormed(before);
      assert forall i | 0 <= i < |before| :: before[i] == messages[i];
      if WellFormed(before) && |messages| > 1 {
        assert before[|before| - 1] == messages[|messages| - 2];
      }
    }
  }

  lemma {:induction false} ParseAppends(g: Group, a: seq<Message>, b: seq<Message>)
    requires Parse(g, a).Some?
    ensures Parse(g, a + b) == Parse(Parse(g, a).value, b)
    decreases |b|
  {
    if b == [] {
      assert a + b == a;
    } else {
      assert (a + b)[..|a + b| - 1] == a + b[..|b| - 1];
      ParseAppends(g, a, b[..|b| - 1]);
    }
  }

  /** The group a recorded entry stands for: a silent baseline never opened one. */
  function GroupOf(prior: Option<Entry>): Group {
    if prior.Some? && !prior.value.silent then Open(prior.value.stage) else Quiet
  }

  /** What one candidate's message does to its group is what its new entry records. */
  lemma DueContinuesGroup(previous: State, c: Candidate, now: int)
    ensures Parse(GroupOf(Prior(previous, c.key)), DueList(previous, c))
            == Some(GroupOf(Prior(Updated(previous, previous, c, now), c.key)))
  {
    var g, due := GroupOf(Prior(previous, c.key)), Due(previous, c);
    if due.Some? {
      assert [due.value][..0] == [];
      assert Parse(g, [due.value]) == Next(g, due.value);
    }
  }

  lemma PassContinuesGroups(previous: State, candidates: seq<Candidate>, now: int, k: Key)
    requires UniqueKeys(candidates)
    ensures Parse(GroupOf(Prior(previous, k)), About(Messages(previous, candidates), k))
            == Some(GroupOf(Prior(Reconciled(previous, candidates, now), k)))
  {
    if Seen(candidates, k) {
      var i :| 0 <= i < |candidates| && candidates[i].key == k;
      hide *;
      SeenKey(previous, candidates, now, i);
      DueContinuesGroup(previous, candidates[i], now);
    } else {
      UnseenKey(previous, candidates, now, k);
      hide Messages, Reconciled, About, Prior, GroupOf, Seen, UniqueKeys;
    }
  }

  // ---------- runs ----------

  /** How a scheduled run ends: a delivery may fail, or the state may fail to be written after all of them. */
  datatype Fault = NoFault | DeliveryFails(at: nat) | WriteFails

  datatype Pass = Pass(candidates: seq<Candidate>, now: int, fault: Fault)

  datatype Monitor = Monitor(state: State, sent: seq<Message>)

  predicate Completes(m: Monitor, p: Pass) {
    p.fault.NoFault? || (p.fault.DeliveryFails? && p.fault.at >= |Messages(m.state, p.candidates)|)
  }

  function Step(m: Monitor, p: Pass): Monitor {
    var due := Messages(m.state, p.candidates);
    if Completes(m, p) then Monitor(Reconciled(m.state, p.candidates, p.now), m.sent + due)
    else m.(sent := m.sent + if p.fault.DeliveryFails? then due[..p.fault.at] else due)
  }

  function Run(m: Monitor, passes: seq<Pass>): Monitor
    decreases |passes|
  {
    if passes == [] then m else Run(Step(m, passes[0]), passes[1..])
  }

  /** One scheduled run: load, reconcile, write; the file is replaced only at the very end. */
  class StateFile {
    var state: State
    var outbox: seq<Message>

    constructor (state: State)
      ensures this.state == state && outbox == []
    {
      this.state, outbox := state, [];
    }

    method ScheduledRun(p: Pass) returns (ok: bool)
      modifies this
      ensures Monitor(state, outbox) == Step(old(Monitor(state, outbox)), p)
      ensures ok == Completes(old(Monitor(state, outbox)), p)
    {
      var broken := if p.fault.DeliveryFails? then Some(p.fault.at) else None;
      var current, sent := Reconcile(p.candidates, state, p.now, broken);
      outbox := outbox + sent;
      if current.None? || p.fault.WriteFails? { return false; }
      state := current.value;
      return true;
    }
  }

  /** From any recorded state, over any number of completed runs, the messages about a key continue its open
      group by the grammar and end in the group the state records. */
  lemma {:induction false} RunsFollowTheGrammar(m: Monitor, passes: seq<Pass>, k: Key, g: Group)
    requires forall i | 0 <= i < |passes| :: UniqueKeys(passes[i].candidates) && passes[i].fault.NoFault?
    requires Parse(g, About(m.sent, k)) == Some(GroupOf(Prior(m.state, k)))
    ensures var end := Run(m, passes); Parse(g, About(end.sent, k)) == Some(GroupOf(Prior(end.state, k)))
    decreases |passes|
  {
    if passes != [] {
      var p := passes[0];
      var due := Messages(m.state, p.candidates);
      PassContinuesGroups(m.state, p.candidates, p.now, k);
      AboutAppends(m.sent, due, k);
      ParseAppends(g, About(m.sent, k), About(due, k));
      RunsFollowTheGrammar(Step(m, p), passes[1..], k, g);
    }
  }

  /** From an empty state or a silent baseline every key's messages are groups of alerts, each closed by at most
      one recovery and with no repeated stage in a row; so a baseline entry never leads to a recovery. */
  lemma MessagesAreWellFormed(start: State, passes: seq<Pass>, k: Key)
    requires forall x | x in start :: start[x].silent
    requires forall i | 0 <= i < |passes| :: UniqueKeys(passes[i].candidates) && passes[i].fault.NoFault?
    ensures WellFormed(About(Run(Monitor(start, []), passes).sent, k))
  {
    RunsFollowTheGrammar(Monitor(start, []), passes, k, Quiet);
    ParseIsWellFormed(About(Run(Monitor(start, []), passes).sent, k));
  }

  /** An entry that is not a baseline was really reported. */
  predicate Reported(m: Monitor) {
    forall k | k in m.state && !m.state[k].silent :: Alert(k, m.state[k].stage) in m.sent
  }

  lemma {:induction false} PassReports(previous: State, candidates: seq<Candidate>, now: int)
    ensures var current := Reconciled(previous, candidates, now);
            forall k | k in current && !current[k].silent ::
              (k in previous && previous[k] == current[k]) || Alert(k, current[k].stage) in Messages(previous, candidates)
  {
    if candidates != [] { PassReports(previous, candidates[..|candidates| - 1], now); }
  }

  /** Whatever deliveries and writes fail along the way, no alert is ever recorded without having been sent. */
  lemma {:induction false} RunKeepsReported(m: Monitor, passes: seq<Pass>)
    requires Reported(m)
    ensures Reported(Run(m, passes))
    decreases |passes|
  {
    if passes != [] {
      PassReports(m.state, passes[0].candidates, passes[0].now);
      RunKeepsReported(Step(m, passes[0]), passes[1..]);
    }
  }

  lemma {:induction false} FailedRunsKeepState(m: Monitor, passes: seq<Pass>)
    requires forall i | 0 <= i < |passes| :: passes[i].fault.WriteFails?
               || (passes[i].fault.DeliveryFails? && passes[i].fault.at < |Messages(m.state, passes[i].candidates)|)
    ensures Run(m, passes).state == m.state && m.sent <= Run(m, passes).sent
    decreases |passes|
  {
    if passes != [] { FailedRunsKeepState(Step(m, passes[0]), passes[1..]); }
  }

  /** No due message is lost: after any number of failed runs, the next completed one delivers everything that
      is still due since the last recorded state, and afterwards every candidate that needs attention has
      either been reported at that stage or was part of the silent baseline at that very stage. */
  lemma NoAlertIsLost(m: Monitor, failed: seq<Pass>, p: Pass, i: nat)
    requires Reported(m) && UniqueKeys(p.candidates) && p.fault.NoFault? && i < |p.candidates|
    requires forall j | 0 <= j < |failed| :: failed[j].fault.WriteFails?
               || (failed[j].fault.DeliveryFails? && failed[j].fault.at < |Messages(m.state, failed[j].candidates)|)
    ensures var before := Run(m, failed);
            var end, c := Step(before, p), p.candidates[i];
            && end.sent == before.sent + Messages(m.state, p.candidates)
            && Settled(end.state, c)
            && (c.attention.Some? ==>
                  || Alert(c.key, c.attention.value) in end.sent
                  || (c.key in m.state && m.state[c.key].silent && m.state[c.key].stage == c.attention.value))
  {
    FailedRunsKeepState(m, failed);
    RunKeepsReported(m, failed);
    var before := Run(m, failed);
    RunKeepsReported(before, [p]);
    assert Run(before, [p]) == Step(before, p) by { assert [p][1..] == []; }
    SeenKey(m.state, p.candidates, p.now, i);
  }
}
