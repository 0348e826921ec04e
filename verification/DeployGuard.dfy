/** The deploy-start guard: a unit start is allowed when no deployment state exists, or inside the
    restart window of a live deploy.  Deploys, guards and crashes interleave one system call at a time. */
module DeployGuard {
  import opened Sql

  type Id = nat
  type Environment = string
  type Sha = string

  datatype DeploymentState = Blocked | RestartAuthorized | ReadinessPending

  /** The state file; Foreign stands for any bytes that no deploy writes. */
  datatype StateFile = StateFile(state: DeploymentState, environment: Environment, sha: Sha) | Foreign

  datatype Lock = Missing | Free | HeldByDeploy(deploy: Id) | HeldByGuard(guard: Id)

  /** What .runtime-deploy holds for one environment. */
  datatype Files = Files(state: Option<StateFile>, main: Lock, window: Lock)

  /** Failed is the exit trap after it has rewritten the blocked state; the flag says whether it still holds
      the window lock. */
  datatype DeployStage =
    | Starting | MainHeld | StateBlocked | WindowHeld | Authorized | Pending | Cleared | Failed(window: bool) | Gone

  datatype Deploy = Deploy(environment: Environment, sha: Sha, stage: DeployStage)

  /** Done records the verdict and whether a state file was seen. */
  datatype GuardStage =
    | Reading | ProbingMain | HoldingMain | ProbingWindow | HoldingWindow
    | Done(allowed: bool, sawState: bool)

  datatype Guard = Guard(environment: Environment, sha: Sha, stage: GuardStage)

  datatype World = World(files: map<Environment, Files>, deploys: map<Id, Deploy>, guards: map<Id, Guard>)

  datatype Event =
    | BeginDeploy(id: Id, environment: Environment, sha: Sha)
    | AdvanceDeploy(id: Id)
    | FailDeploy(id: Id, current: Sha)
    | CrashDeploy(id: Id)
    | BeginGuard(id: Id, environment: Environment, sha: Sha)
    | AdvanceGuard(id: Id)
    | KillGuard(id: Id)

  function At(w: World, e: Environment): Files {
    if e in w.files then w.files[e] else Files(None, Missing, Missing)
  }

  predicate Acquirable(l: Lock) { l.Missing? || l.Free? }

  // ---------- deploy.sh ----------

  /** The deploy reaches a stage and leaves these files behind. */
  function DeployLeaves(w: World, id: Id, stage: DeployStage, f: Files): World
    requires id in w.deploys
  {
    w.(deploys := w.deploys[id := w.deploys[id].(stage := stage)], files := w.files[w.deploys[id].environment := f])
  }

  function Unlock(l: Lock, owner: Lock): Lock { if l == owner then Free else l }

  predicate HoldsMain(d: Deploy) { !d.stage.Starting? && !d.stage.Gone? }

  predicate HoldsWindow(d: Deploy) {
    || d.stage.WindowHeld? || d.stage.Authorized? || d.stage.Pending? || d.stage.Cleared?
    || (d.stage.Failed? && d.stage.window)
  }

  /** Process exit, orderly or not: the kernel drops both locks and nothing else changes. */
  function Exit(w: World, id: Id): World
    requires id in w.deploys
  {
    var f := At(w, w.deploys[id].environment);
    DeployLeaves(w, id, Gone,
      f.(main := Unlock(f.main, HeldByDeploy(id)), window := Unlock(f.window, HeldByDeploy(id))))
  }

  /** The exit trap of a failing deploy that had started: it restores the blocked state. */
  function Fail(w: World, id: Id, current: Sha): World
    requires id in w.deploys
  {
    var d := w.deploys[id];
    DeployLeaves(w, id, Failed(HoldsWindow(d)),
      At(w, d.environment).(state := Some(StateFile(Blocked, d.environment, current))))
  }

  /** The trap rewrites the state once the deploy holds the main lock and has set its started flag;
      a failure just before that flag is the plain exit of CrashDeploy. */
  predicate Started(d: Deploy) { HoldsMain(d) && !d.stage.Failed? }

  /** One system call of the deploy; opening a lock file creates it when it is missing. */
  function DeployStep(w: World, id: Id): World
    requires id in w.deploys
  {
    var d := w.deploys[id];
    var f := At(w, d.environment);
    match d.stage
    case Starting =>
      if f.main.Missing? then DeployLeaves(w, id, Starting, f.(main := Free))
      else if f.main.Free? then DeployLeaves(w, id, MainHeld, f.(main := HeldByDeploy(id)))
      else DeployLeaves(w, id, Gone, f)
    case MainHeld =>
      DeployLeaves(w, id, StateBlocked, f.(state := Some(StateFile(Blocked, d.environment, d.sha))))
    case StateBlocked =>
      if f.window.Missing? then DeployLeaves(w, id, StateBlocked, f.(window := Free))
      else if f.window.Free? then DeployLeaves(w, id, WindowHeld, f.(window := HeldByDeploy(id)))
      else Fail(w, id, d.sha)
    case WindowHeld =>
      DeployLeaves(w, id, Authorized, f.(state := Some(StateFile(RestartAuthorized, d.environment, d.sha))))
    case Authorized =>
      DeployLeaves(w, id, Pending, f.(state := Some(StateFile(ReadinessPending, d.environment, d.sha))))
    case Pending => DeployLeaves(w, id, Cleared, f.(state := None))
    case Cleared | Failed(_) => Exit(w, id)
    case Gone => w
  }

  // ---------- verify_deploy_start_guard.py ----------

  predicate LowerHex(sha: Sha) {
    |sha| == 40 && forall i | 0 <= i < |sha| :: '0' <= sha[i] <= '9' || 'a' <= sha[i] <= 'f'
  }

  predicate ValidRequest(e: Environment, sha: Sha) { e in {"production", "staging"} && LowerHex(sha) }

  function GuardLeaves(w: World, id: Id, stage: GuardStage, f: Files): World
    requires id in w.guards
  {
    w.(guards := w.guards[id := w.guards[id].(stage := stage)], files := w.files[w.guards[id].environment := f])
  }

  /** One system call of the guard.  Probing a lock that is free takes it; the next call gives it back. */
  function GuardStep(w: World, id: Id): World
    requires id in w.guards
  {
    var g := w.guards[id];
    var f := At(w, g.environment);
    match g.stage
    case Reading =>
      GuardLeaves(w, id,
        if f.state.None? then Done(true, false)
        else if f.state.value == StateFile(RestartAuthorized, g.environment, g.sha) then ProbingMain
        else Done(false, true), f)
    case ProbingMain =>
      if f.main.Missing? then GuardLeaves(w, id, Done(false, true), f)
      else if f.main.Free? then GuardLeaves(w, id, HoldingMain, f.(main := HeldByGuard(id)))
      else GuardLeaves(w, id, ProbingWindow, f)
    case HoldingMain => GuardLeaves(w, id, Done(false, true), f.(main := Free))
    case ProbingWindow =>
      if f.window.Missing? then GuardLeaves(w, id, Done(false, true), f)
      else if f.window.Free? then GuardLeaves(w, id, HoldingWindow, f.(window := HeldByGuard(id)))
      else GuardLeaves(w, id, Done(true, true), f)
    case HoldingWindow => GuardLeaves(w, id, Done(false, true), f.(window := Free))
    case Done(_, _) => w
  }

  /** A guard process that is killed starts nothing and drops whatever it holds. */
  function Kill(w: World, id: Id): World
    requires id in w.guards && !w.guards[id].stage.Done?
  {
    var f := At(w, w.guards[id].environment);
    GuardLeaves(w, id, Done(false, false),
      f.(main := Unlock(f.main, HeldByGuard(id)), window := Unlock(f.window, HeldByGuard(id))))
  }

  function Step(w: World, event: Event): World {
    match event
    case BeginDeploy(id, e, sha) =>
      if id in w.deploys then w else w.(deploys := w.deploys[id := Deploy(e, sha, Starting)])
    case AdvanceDeploy(id) => if id in w.deploys then DeployStep(w, id) else w
    case FailDeploy(id, current) =>
      if id !in w.deploys then w else if Started(w.deploys[id]) then Fail(w, id, current) else Exit(w, id)
    case CrashDeploy(id) => if id in w.deploys then Exit(w, id) else w
    case BeginGuard(id, e, sha) =>
      if id in w.guards then w
      else w.(guards := w.guards[id := Guard(e, sha, if ValidRequest(e, sha) then Reading else Done(false, false))])
    case AdvanceGuard(id) => if id in w.guards then GuardStep(w, id) else w
    case KillGuard(id) => if id in w.guards && !w.guards[id].stage.Done? then Kill(w, id) else w
  }

  function Run(w: World, events: seq<Event>): World
    decreases |events|
  {
    if events == [] then w else Run(Step(w, events[0]), events[1..])
  }

  // ---------- what every reachable state keeps ----------

  /** What the state file must contain while the deploy is at this stage. */
  predicate StateWrittenBy(d: Deploy, state: Option<StateFile>) {
    match d.stage
    case Starting | MainHeld | Gone => true
    case StateBlocked | WindowHeld => state == Some(StateFile(Blocked, d.environment, d.sha))
    case Authorized => state == Some(StateFile(RestartAuthorized, d.environment, d.sha))
    case Pending => state == Some(StateFile(ReadinessPending, d.environment, d.sha))
    case Cleared => state == None
    case Failed(_) => state.Some? && state.value.StateFile? && state.value.state.Blocked?
  }

  predicate DeployFits(d: Deploy, id: Id, f: Files) {
    && (HoldsMain(d) <==> f.main == HeldByDeploy(id))
    && (HoldsWindow(d) <==> f.window == HeldByDeploy(id))
    && StateWrittenBy(d, f.state)
  }

  predicate GuardFits(g: Guard, id: Id, f: Files) {
    && (g.stage.HoldingMain? <==> f.main == HeldByGuard(id))
    && (g.stage.HoldingWindow? <==> f.window == HeldByGuard(id))
  }

  predicate DeployOk(w: World, id: Id)
    requires id in w.deploys
  { DeployFits(w.deploys[id], id, At(w, w.deploys[id].environment)) }

  predicate GuardOk(w: World, id: Id)
    requires id in w.guards
  { GuardFits(w.guards[id], id, At(w, w.guards[id].environment)) }

  /** Every holder of a lock is a process of that environment. */
  predicate OwnerOk(w: World, e: Environment, l: Lock) {
    match l
    case HeldByDeploy(d) => d in w.deploys && w.deploys[d].environment == e
    case HeldByGuard(g) => g in w.guards && w.guards[g].environment == e
    case _ => true
  }

  predicate OwnersOk(w: World) {
    forall e | e in w.files :: OwnerOk(w, e, w.files[e].main) && OwnerOk(w, e, w.files[e].window)
  }

  predicate DeploysOk(w: World) { forall id | id in w.deploys :: DeployOk(w, id) }

  predicate GuardsOk(w: World) { forall id | id in w.guards :: GuardOk(w, id) }

  predicate Invariant(w: World) { DeploysOk(w) && GuardsOk(w) && OwnersOk(w) }

  /** A process may only take a lock that is acquirable and only drop its own. */
  predicate LockMoves(was: Lock, now: Lock, owner: Lock) {
    now == was || ((Acquirable(was) || was == owner) && (Acquirable(now) || now == owner))
  }

  predicate FilesMove(was: Files, now: Files, owner: Lock) {
    && LockMoves(was.main, now.main, owner)
    && LockMoves(was.window, now.window, owner)
    && (now.state == was.state || (owner.HeldByDeploy? && was.main == owner))
  }

  lemma OthersStillFit(was: Files, now: Files, owner: Lock, d: Deploy, g: Guard, x: Id)
    requires FilesMove(was, now, owner) && (owner.HeldByDeploy? || owner.HeldByGuard?)
    ensures DeployFits(d, x, was) && owner != HeldByDeploy(x) ==> DeployFits(d, x, now)
    ensures GuardFits(g, x, was) && owner != HeldByGuard(x) ==> GuardFits(g, x, now)
  {}

  lemma DeployLeavesInvariant(w: World, id: Id, stage: DeployStage, f: Files)
    requires Invariant(w) && id in w.deploys
    requires FilesMove(At(w, w.deploys[id].environment), f, HeldByDeploy(id))
    requires DeployFits(w.deploys[id].(stage := stage), id, f)
    ensures Invariant(DeployLeaves(w, id, stage, f))
  {
    var next := DeployLeaves(w, id, stage, f);
    var e := w.deploys[id].environment;
    assert OwnersOk(next) by { hide DeployFits, GuardFits; }
    hide FilesMove, OwnersOk, OwnerOk;
    forall x | x in next.deploys ensures DeployOk(next, x) {
      assert DeployOk(w, x);
      if x != id && w.deploys[x].environment == e {
        OthersStillFit(At(w, e), f, HeldByDeploy(id), w.deploys[x], Guard("", "", Reading), x);
      }
    }
    forall x | x in next.guards ensures GuardOk(next, x) {
      assert GuardOk(w, x);
      if w.guards[x].environment == e {
        OthersStillFit(At(w, e), f, HeldByDeploy(id), w.deploys[id], w.guards[x], x);
      }
    }
  }

  lemma GuardLeavesInvariant(w: World, id: Id, stage: GuardStage, f: Files)
    requires Invariant(w) && id in w.guards
    requires FilesMove(At(w, w.guards[id].environment), f, HeldByGuard(id))
    requires GuardFits(w.guards[id].(stage := stage), id, f)
    ensures Invariant(GuardLeaves(w, id, stage, f))
  {
    var next := GuardLeaves(w, id, stage, f);
    var e := w.guards[id].environment;
    assert OwnersOk(next) by { hide DeployFits, GuardFits; }
    hide FilesMove, OwnersOk, OwnerOk;
    forall x | x in next.deploys ensures DeployOk(next, x) {
      assert DeployOk(w, x);
      if w.deploys[x].environment == e {
        OthersStillFit(At(w, e), f, HeldByGuard(id), w.deploys[x], w.guards[id], x);
      }
    }
    forall x | x in next.guards ensures GuardOk(next, x) {
      assert GuardOk(w, x);
      if x != id && w.guards[x].environment == e {
        OthersStillFit(At(w, e), f, HeldByGuard(id), Deploy("", "", Gone), w.guards[x], x);
      }
    }
  }

  lemma ExitKeepsInvariant(w: World, id: Id)
    requires Invariant(w) && id in w.deploys
    ensures Invariant(Exit(w, id))
  {
    assert DeployOk(w, id);
    hide Invariant, DeployOk;
    var f := At(w, w.deploys[id].environment);
    DeployLeavesInvariant(w, id, Gone,
      f.(main := Unlock(f.main, HeldByDeploy(id)), window := Unlock(f.window, HeldByDeploy(id))));
  }

  lemma FailKeepsInvariant(w: World, id: Id, current: Sha)
    requires Invariant(w) && id in w.deploys && Started(w.deploys[id])
    ensures Invariant(Fail(w, id, current))
  {
    var d := w.deploys[id];
    assert DeployOk(w, id);
    hide Invariant, DeployOk;
    DeployLeavesInvariant(w, id, Failed(HoldsWindow(d)),
      At(w, d.environment).(state := Some(StateFile(Blocked, d.environment, current))));
  }

  lemma DeployStepKeepsInvariant(w: World, id: Id)
    requires Invariant(w) && id in w.deploys
    ensures Invariant(DeployStep(w, id))
  {
    var d := w.deploys[id];
    if d.stage.Cleared? || d.stage.Failed? {
      ExitKeepsInvariant(w, id);
    } else if d.stage.StateBlocked? && !Acquirable(At(w, d.environment).window) {
      FailKeepsInvariant(w, id, d.sha);
    } else if !d.stage.Gone? {
      assert DeployOk(w, id);
      hide Invariant, DeployOk;
      var next := DeployStep(w, id);
      DeployLeavesInvariant(w, id, next.deploys[id].stage, next.files[d.environment]);
    }
  }

  lemma GuardStepKeepsInvariant(w: World, id: Id)
    requires Invariant(w) && id in w.guards
    ensures Invariant(GuardStep(w, id))
    ensures !w.guards[id].stage.Done? ==> Invariant(Kill(w, id))
  {
    var g := w.guards[id];
    assert GuardOk(w, id);
    hide Invariant, GuardOk;
    if !g.stage.Done? {
      var next, killed := GuardStep(w, id), Kill(w, id);
      GuardLeavesInvariant(w, id, next.guards[id].stage, next.files[g.environment]);
      GuardLeavesInvariant(w, id, killed.guards[id].stage, killed.files[g.environment]);
    }
  }

  /** A lock never names a process that does not exist yet. */
  lemma NobodyBeforeBirth(w: World, e: Environment, id: Id)
    requires OwnersOk(w)
    ensures id !in w.deploys ==> At(w, e).main != HeldByDeploy(id) && At(w, e).window != HeldByDeploy(id)
    ensures id !in w.guards ==> At(w, e).main != HeldByGuard(id) && At(w, e).window != HeldByGuard(id)
  {
    assert e in w.files ==> OwnerOk(w, e, w.files[e].main) && OwnerOk(w, e, w.files[e].window);
  }

  lemma BeginKeepsInvariant(w: World, event: Event)
    requires Invariant(w) && (event.BeginDeploy? || event.BeginGuard?)
    ensures Invariant(Step(w, event))
  {
    NobodyBeforeBirth(w, event.environment, event.id);
    var next := Step(w, event);
    assert next.files == w.files;
    assert OwnersOk(next) by { hide DeploysOk, GuardsOk; }
    hide OwnersOk, OwnerOk, DeployStep, GuardStep, Exit, Fail, Kill;
    forall x | x in next.deploys ensures DeployOk(next, x) {
      assert x in w.deploys ==> DeployOk(w, x);
    }
    forall x | x in next.guards ensures GuardOk(next, x) {
      assert x in w.guards ==> GuardOk(w, x);
    }
  }

  lemma StepKeepsInvariant(w: World, event: Event)
    requires Invariant(w)
    ensures Invariant(Step(w, event))
  {
    hide Invariant, DeployStep, GuardStep, Exit, Fail, Kill, Started;
    match event
    case AdvanceDeploy(id) => if id in w.deploys { DeployStepKeepsInvariant(w, id); }
    case FailDeploy(id, current) =>
      if id in w.deploys {
        if Started(w.deploys[id]) { FailKeepsInvariant(w, id, current); } else { ExitKeepsInvariant(w, id); }
      }
    case CrashDeploy(id) => if id in w.deploys { ExitKeepsInvariant(w, id); }
    case AdvanceGuard(id) => if id in w.guards { GuardStepKeepsInvariant(w, id); }
    case KillGuard(id) => if id in w.guards { GuardStepKeepsInvariant(w, id); }
    case _ => BeginKeepsInvariant(w, event);
  }

  lemma {:induction false} RunKeepsInvariant(w: World, events: seq<Event>)
    requires Invariant(w)
    ensures Invariant(Run(w, events))
    decreases |events|
  {
    hide Invariant, Step;
    if events != [] {
      StepKeepsInvariant(w, events[0]);
      RunKeepsInvariant(Step(w, events[0]), events[1..]);
    }
  }

  // ---------- an allowed start has a live deploy behind it ----------

  predicate Allows(w: World, id: Id) {
    id in w.guards && !w.guards[id].stage.Done? && GuardStep(w, id).guards[id].stage == Done(true, true)
  }

  predicate HoldsBothLocks(w: World, d: Id, e: Environment) {
    && d in w.deploys && w.deploys[d].environment == e
    && At(w, e).main == HeldByDeploy(d) && At(w, e).window == HeldByDeploy(d)
  }

  predicate WindowHeldByGuard(w: World, e: Environment) {
    exists other | other in w.guards :: w.guards[other].environment == e && w.guards[other].stage.HoldingWindow?
  }

  /** With a state file present, a guard at its last probe allows the start exactly when a live deploy
      holds both locks or another guard is, for an instant, inside its own probe of the window lock. */
  lemma AllowedStartIsAHeldWindow(w: World, id: Id)
    requires Invariant(w) && id in w.guards && w.guards[id].stage.ProbingWindow?
    ensures var e := w.guards[id].environment;
            Allows(w, id) <==> (exists d :: HoldsBothLocks(w, d, e)) || WindowHeldByGuard(w, e)
  {
    var e := w.guards[id].environment;
    var f := At(w, e);
    assert GuardOk(w, id);
    if Allows(w, id) {
      if f.window.HeldByDeploy? {
        var d := f.window.deploy;
        assert OwnerOk(w, e, f.window) && DeployOk(w, d);
        assert HoldsBothLocks(w, d, e);
      } else {
        var other := f.window.guard;
        assert OwnerOk(w, e, f.window) && GuardOk(w, other);
      }
    }
    if WindowHeldByGuard(w, e) {
      var other :| other in w.guards && w.guards[other].environment == e && w.guards[other].stage.HoldingWindow?;
      assert GuardOk(w, other);
    }
  }

  /** The deploy behind an allowed start is the one the state file was written for exactly when the file
      still reads as the guard read it. */
  lemma LiveDeployIsTheAuthorizedOne(w: World, d: Id, e: Environment, sha: Sha)
    requires Invariant(w) && HoldsBothLocks(w, d, e)
    ensures At(w, e).state == Some(StateFile(RestartAuthorized, e, sha))
            <==> w.deploys[d].stage.Authorized? && w.deploys[d].sha == sha
  {
    assert DeployOk(w, d);
  }

  /** No deploy makes progress; deploys may still be launched and guards run freely. */
  predicate NoDeployStep(event: Event) {
    !event.AdvanceDeploy? && !event.FailDeploy? && !event.CrashDeploy?
  }

  /** Past its read of the state file, an undecided guard has seen its own authorization. */
  predicate ReadItsAuthorization(w: World, id: Id) {
    && id in w.guards
    && var g := w.guards[id];
    !g.stage.Reading? && !g.stage.Done? ==>
      At(w, g.environment).state == Some(StateFile(RestartAuthorized, g.environment, g.sha))
  }

  lemma StateSurvivesStep(w: World, event: Event, id: Id)
    requires NoDeployStep(event) && ReadItsAuthorization(w, id)
    ensures ReadItsAuthorization(Step(w, event), id)
    ensures Step(w, event).guards[id].environment == w.guards[id].environment
    ensures Step(w, event).guards[id].sha == w.guards[id].sha
  {}

  lemma {:induction false} StateSurvivesRun(w: World, events: seq<Event>, id: Id)
    requires ReadItsAuthorization(w, id)
    requires forall i | 0 <= i < |events| :: NoDeployStep(events[i])
    ensures ReadItsAuthorization(Run(w, events), id)
    ensures Run(w, events).guards[id].environment == w.guards[id].environment
    ensures Run(w, events).guards[id].sha == w.guards[id].sha
    decreases |events|
  {
    if events != [] {
      StateSurvivesStep(w, events[0], id);
      hide Step, ReadItsAuthorization;
      StateSurvivesRun(Step(w, events[0]), events[1..], id);
    }
  }

  /** A guard that runs from its first read to an allowed start with no deploy step in between, and with no
      other guard inside its window probe at that moment, has the live deploy of exactly its environment
      and SHA behind it, inside the restart window. */
  lemma UninterruptedAllowanceIsExact(w: World, events: seq<Event>, id: Id)
    requires Invariant(w) && id in w.guards && w.guards[id].stage.Reading?
    requires forall i | 0 <= i < |events| :: NoDeployStep(events[i])
    requires var v := Run(w, events);
             && id in v.guards && Allows(v, id)
             && !WindowHeldByGuard(v, v.guards[id].environment)
    ensures var v, g := Run(w, events), w.guards[id];
            exists d :: HoldsBothLocks(v, d, g.environment)
                        && v.deploys[d] == Deploy(g.environment, g.sha, Authorized)
                        && At(v, g.environment).state == Some(StateFile(RestartAuthorized, g.environment, g.sha))
  {
    var v, e := Run(w, events), w.guards[id].environment;
    RunKeepsInvariant(w, events);
    StateSurvivesRun(w, events, id);
    assert v.guards[id].stage.ProbingWindow?;
    hide Run, Invariant, DeployOk, GuardOk, GuardStep;
    AllowedStartIsAHeldWindow(v, id);
    var d :| HoldsBothLocks(v, d, e);
    LiveDeployIsTheAuthorizedOne(v, d, e, w.guards[id].sha);
  }

  lemma RunCons(w: World, event: Event, rest: seq<Event>)
    ensures Run(w, [event] + rest) == Run(Step(w, event), rest)
  {
    hide Step;
    assert ([event] + rest)[1..] == rest;
  }

  lemma {:induction false} RunAppend(w: World, a: seq<Event>, b: seq<Event>)
    ensures Run(w, a + b) == Run(Run(w, a), b)
    decreases |a|
  {
    hide Step;
    if a == [] {
      assert a + b == b;
    } else {
      assert (a + b)[1..] == a[1..] + b;
      RunAppend(Step(w, a[0]), a[1..], b);
    }
  }

  lemma RunThree(w: World, a: Event, b: Event, c: Event, rest: seq<Event>)
    ensures Run(w, [a] + ([b] + ([c] + rest))) == Run(Step(Step(Step(w, a), b), c), rest)
  {
    hide Step;
    RunCons(w, a, [b] + ([c] + rest));
    RunCons(Step(w, a), b, [c] + rest);
    RunCons(Step(Step(w, a), b), c, rest);
  }

  // ---------- undisturbed runs ----------

  function Turns(event: Event, n: nat): seq<Event> { if n == 0 then [] else [event] + Turns(event, n - 1) }

  lemma {:induction false} TurnsStay(w: World, event: Event, n: nat)
    requires Step(w, event) == w
    ensures Run(w, Turns(event, n)) == w
  {
    if n > 0 {
      hide Step;
      RunCons(w, event, Turns(event, n - 1));
      TurnsStay(w, event, n - 1);
    }
  }

  predicate Held(l: Lock) { l.HeldByDeploy? || l.HeldByGuard? }

  lemma GuardLeavesTwice(w: World, id: Id, s: GuardStage, f: Files, t: GuardStage, g: Files)
    requires id in w.guards
    ensures GuardLeaves(GuardLeaves(w, id, s, f), id, t, g) == GuardLeaves(w, id, t, g)
    ensures At(GuardLeaves(w, id, s, f), w.guards[id].environment) == f
  {}

  /** What an undisturbed guard decides from the files as it finds them. */
  function Verdict(e: Environment, sha: Sha, f: Files): GuardStage {
    Done(|| f.state.None?
         || (f.state == Some(StateFile(RestartAuthorized, e, sha)) && Held(f.main) && Held(f.window)), f.state.Some?)
  }

  lemma VerdictAtMain(w: World, id: Id, f: Files)
    requires id in w.guards && f.state == Some(StateFile(RestartAuthorized, w.guards[id].environment, w.guards[id].sha))
    ensures Run(GuardLeaves(w, id, ProbingMain, f), Turns(AdvanceGuard(id), 3))
         == GuardLeaves(w, id, Verdict(w.guards[id].environment, w.guards[id].sha, f), f)
  {
    var g, go := w.guards[id], AdvanceGuard(id);
    var done := GuardLeaves(w, id, Verdict(g.environment, g.sha, f), f);
    var v := GuardLeaves(w, id, ProbingMain, f);
    GuardLeavesTwice(w, id, ProbingMain, f, ProbingWindow, f);
    RunCons(v, go, Turns(go, 2));
    RunCons(Step(v, go), go, Turns(go, 1));
    RunCons(Step(Step(v, go), go), go, Turns(go, 0));
    if f.main.Free? {
      assert Step(v, go) == GuardLeaves(w, id, HoldingMain, f.(main := HeldByGuard(id)));
      assert Step(Step(v, go), go) == done;
    } else if Held(f.main) {
      assert Step(v, go) == GuardLeaves(w, id, ProbingWindow, f);
      if f.window.Free? {
        assert Step(Step(v, go), go) == GuardLeaves(w, id, HoldingWindow, f.(window := HeldByGuard(id)));
      } else {
        assert Step(Step(v, go), go) == done;
      }
    }
  }

  /** In every world, an undisturbed guard comes to this verdict and leaves all files as it found them. */
  lemma UndisturbedVerdict(w: World, id: Id)
    requires id in w.guards && w.guards[id].stage.Reading?
    ensures var g, f := w.guards[id], At(w, w.guards[id].environment);
            && Run(w, Turns(AdvanceGuard(id), 4)) == GuardLeaves(w, id, Verdict(g.environment, g.sha, f), f)
            && (Verdict(g.environment, g.sha, f).allowed <==>
                  || f.state == None
                  || (&& f.state == Some(StateFile(RestartAuthorized, g.environment, g.sha))
                      && !Acquirable(f.main) && !Acquirable(f.window)))
  {
    var g, f, go := w.guards[id], At(w, w.guards[id].environment), AdvanceGuard(id);
    RunCons(w, go, Turns(go, 3));
    if f.state == Some(StateFile(RestartAuthorized, g.environment, g.sha)) {
      VerdictAtMain(w, id, f);
    } else {
      TurnsStay(Step(w, go), go, 3);
    }
  }

  /** A start from the command line: invalid arguments are refused before anything is read. */
  lemma StartVerdict(w: World, id: Id, e: Environment, sha: Sha)
    requires id !in w.guards
    ensures var end, f := Run(w, [BeginGuard(id, e, sha)] + Turns(AdvanceGuard(id), 4)), At(w, e);
            && id in end.guards && end.guards[id].stage.Done? && At(end, e) == f
            && (end.guards[id].stage.sawState <==> ValidRequest(e, sha) && f.state.Some?)
            && (end.guards[id].stage.allowed <==>
                  && e in {"production", "staging"}
                  && |sha| == 40 && (forall i | 0 <= i < 40 :: '0' <= sha[i] <= '9' || 'a' <= sha[i] <= 'f')
                  && (|| f.state == None
                      || (&& f.state == Some(StateFile(RestartAuthorized, e, sha))
                          && !Acquirable(f.main) && !Acquirable(f.window))))
  {
    var begun := Step(w, BeginGuard(id, e, sha));
    RunCons(w, BeginGuard(id, e, sha), Turns(AdvanceGuard(id), 4));
    assert At(begun, e) == At(w, e);
    if ValidRequest(e, sha) {
      hide ValidRequest, Turns, Run;
      UndisturbedVerdict(begun, id);
      GuardLeavesTwice(begun, id, Reading, At(w, e), Reading, At(w, e));
    } else {
      TurnsStay(begun, AdvanceGuard(id), 4);
    }
  }

  /** The restart a deploy authorizes does go through: while the authorized deploy lives, an undisturbed guard
      of its environment and SHA allows the start. */
  lemma AuthorizedRestartIsAllowed(w: World, d: Id, id: Id)
    requires Invariant(w) && d in w.deploys && w.deploys[d].stage.Authorized?
    requires id in w.guards && w.guards[id] == Guard(w.deploys[d].environment, w.deploys[d].sha, Reading)
    ensures var end := Run(w, [AdvanceGuard(id)] + ([AdvanceGuard(id)] + ([AdvanceGuard(id)] + [])));
            && id in end.guards && end.guards[id].stage == Done(true, true)
            && HoldsBothLocks(end, d, w.deploys[d].environment)
  {
    var g := AdvanceGuard(id);
    assert DeployOk(w, d);
    var read := Step(w, g);
    var probed := Step(read, g);
    hide Invariant;
    assert read.guards[id].stage.ProbingMain? && At(read, w.deploys[d].environment) == At(w, w.deploys[d].environment);
    assert probed.guards[id].stage.ProbingWindow?;
    assert At(probed, w.deploys[d].environment) == At(w, w.deploys[d].environment);
    assert Step(probed, g).guards[id].stage == Done(true, true);
    RunCons(w, g, [g] + ([g] + []));
    RunCons(read, g, [g] + []);
    RunCons(probed, g, []);
  }

  /** A killed guard allows nothing, drops the lock it was probing and leaves the state file and everybody else
      alone. */
  lemma KilledGuardStartsNothing(w: World, id: Id)
    requires Invariant(w) && id in w.guards && !w.guards[id].stage.Done?
    ensures var e, end := w.guards[id].environment, Step(w, KillGuard(id));
            var f, now := At(w, e), At(end, e);
            && end.guards == w.guards[id := w.guards[id].(stage := Done(false, false))] && end.deploys == w.deploys
            && now.state == f.state
            && now.main == (if f.main == HeldByGuard(id) then Free else f.main)
            && now.window == (if f.window == HeldByGuard(id) then Free else f.window)
            && forall other | other != e :: At(end, other) == At(w, other)
  {}

  lemma DeployLeavesTwice(w: World, id: Id, s: DeployStage, f: Files, t: DeployStage, g: Files)
    requires id in w.deploys
    ensures DeployLeaves(DeployLeaves(w, id, s, f), id, t, g) == DeployLeaves(w, id, t, g)
    ensures At(DeployLeaves(w, id, s, f), w.deploys[id].environment) == f
  {}

  /** System calls left before the deploy is gone, if nobody disturbs it. */
  function CallsLeft(stage: DeployStage, f: Files): nat {
    match stage
    case Starting => if f.main.Missing? then 9 else 8
    case MainHeld => 7
    case StateBlocked => if f.window.Missing? then 6 else 5
    case WindowHeld => 4
    case Authorized => 3
    case Pending => 2
    case Cleared | Failed(_) => 1
    case Gone => 0
  }

  lemma {:induction false} DeployFinishes(w: World, id: Id, n: nat)
    requires id in w.deploys && !w.deploys[id].stage.Gone? && !w.deploys[id].stage.Failed?
    requires DeployOk(w, id) && CallsLeft(w.deploys[id].stage, At(w, w.deploys[id].environment)) <= n
    requires HoldsMain(w.deploys[id]) || Acquirable(At(w, w.deploys[id].environment).main)
    requires HoldsWindow(w.deploys[id]) || Acquirable(At(w, w.deploys[id].environment).window)
    ensures Run(w, Turns(AdvanceDeploy(id), n)) == DeployLeaves(w, id, Gone, Files(None, Free, Free))
    decreases n
  {
    var go, next := AdvanceDeploy(id), Step(w, AdvanceDeploy(id));
    RunCons(w, go, Turns(go, n - 1));
    if next.deploys[id].stage.Gone? {
      TurnsStay(next, go, n - 1);
    } else {
      hide Turns, Run;
      DeployFinishes(next, id, n - 1);
      DeployLeavesTwice(w, id, next.deploys[id].stage, At(next, w.deploys[id].environment), Gone, Files(None, Free, Free));
    }
  }

  /** Whatever state file an earlier deploy left, an undisturbed deploy that finds both locks free ends with no
      state file and free locks; one that finds the main lock held gives up and changes no file. */
  lemma UndisturbedDeploy(w: World, id: Id, e: Environment, sha: Sha)
    requires Invariant(w) && id !in w.deploys
    ensures var f, end := At(w, e), Run(w, [BeginDeploy(id, e, sha)] + Turns(AdvanceDeploy(id), 9));
            && (Acquirable(f.main) && Acquirable(f.window) ==>
                  end == w.(deploys := w.deploys[id := Deploy(e, sha, Gone)], files := w.files[e := Files(None, Free, Free)]))
            && (!Acquirable(f.main) ==>
                  end == w.(deploys := w.deploys[id := Deploy(e, sha, Gone)], files := w.files[e := f]))
  {
    var begun, go := Step(w, BeginDeploy(id, e, sha)), AdvanceDeploy(id);
    RunCons(w, BeginDeploy(id, e, sha), Turns(go, 9));
    NobodyBeforeBirth(w, e, id);
    assert At(begun, e) == At(w, e);
    if !Acquirable(At(w, e).main) {
      RunCons(begun, go, Turns(go, 8));
      TurnsStay(Step(begun, go), go, 8);
    } else if Acquirable(At(w, e).window) {
      hide Turns, Run, Invariant;
      DeployFinishes(begun, id, 9);
    }
  }

  /** A deploy that fails after it has started leaves the state blocked, under the SHA its trap looks up, and
      holds no lock. */
  lemma FailureLeavesBlocked(w: World, id: Id, current: Sha)
    requires Invariant(w) && id in w.deploys
    requires w.deploys[id].stage in {MainHeld, StateBlocked, WindowHeld, Authorized, Pending, Cleared}
    ensures var e := w.deploys[id].environment;
            var f, end := At(w, e), Step(Step(w, FailDeploy(id, current)), AdvanceDeploy(id));
            && At(end, e) == Files(Some(StateFile(Blocked, e, current)), Free,
                                   if f.window == HeldByDeploy(id) then Free else f.window)
            && end.deploys[id].stage.Gone? && end.guards == w.guards
  {
    assert DeployOk(w, id);
    hide Invariant;
  }

  // ---------- what a crash leaves behind ----------

  const NOTHING := World(map[], map[], map[])

  /** A first deploy runs up to its authorization and crashes inside its restart window. */
  function CrashedDeploy(e: Environment, sha: Sha): seq<Event> {
    var go := AdvanceDeploy(0);
    [BeginDeploy(0, e, sha)] + ([go] + ([go] + ([go] + ([go] + ([go] + ([go] + ([CrashDeploy(0)] + [])))))))
  }

  /** Its authorization and free locks. */
  function Stale(e: Environment, sha: Sha): World {
    World(map[e := Files(Some(StateFile(RestartAuthorized, e, sha)), Free, Free)], map[0 := Deploy(e, sha, Gone)], map[])
  }

  function Solo(f: Files, d: Deploy): World { World(map[d.environment := f], map[0 := d], map[]) }

  lemma SoloLeaves(f: Files, d: Deploy, stage: DeployStage, now: Files)
    ensures DeployLeaves(Solo(f, d), 0, stage, now) == Solo(now, d.(stage := stage))
    ensures At(Solo(f, d), d.environment) == f
  {
    assert map[d.environment := f][d.environment := now] == map[d.environment := now];
    assert map[0 := d][0 := d.(stage := stage)] == map[0 := d.(stage := stage)];
  }

  lemma SoloTakesMain(e: Environment, sha: Sha)
    ensures var d, go := Deploy(e, sha, Starting), AdvanceDeploy(0);
            Step(Step(Step(NOTHING, BeginDeploy(0, e, sha)), go), go)
            == Solo(Files(None, HeldByDeploy(0), Missing), d.(stage := MainHeld))
  {
    var d, go := Deploy(e, sha, Starting), AdvanceDeploy(0);
    var begun := Step(NOTHING, BeginDeploy(0, e, sha));
    assert begun == World(map[], map[0 := d], map[]);
    assert Step(begun, go) == Solo(Files(None, Free, Missing), d) by {
      assert map[][e := Files(None, Free, Missing)] == map[e := Files(None, Free, Missing)];
    }
    SoloLeaves(Files(None, Free, Missing), d, MainHeld, Files(None, HeldByDeploy(0), Missing));
  }

  lemma SoloTakesWindow(e: Environment, sha: Sha)
    ensures var d, go := Deploy(e, sha, MainHeld), AdvanceDeploy(0);
            Step(Step(Step(Solo(Files(None, HeldByDeploy(0), Missing), d), go), go), go)
            == Solo(Files(Some(StateFile(Blocked, e, sha)), HeldByDeploy(0), HeldByDeploy(0)), d.(stage := WindowHeld))
  {
    var d, go := Deploy(e, sha, MainHeld), AdvanceDeploy(0);
    var f := Files(None, HeldByDeploy(0), Missing);
    var blocked := f.(state := Some(StateFile(Blocked, e, sha)));
    var made, held := blocked.(window := Free), blocked.(window := HeldByDeploy(0));
    var at := d.(stage := StateBlocked);
    SoloLeaves(f, d, StateBlocked, blocked);
    assert Step(Solo(f, d), go) == Solo(blocked, at);
    SoloLeaves(blocked, at, StateBlocked, made);
    assert Step(Solo(blocked, at), go) == Solo(made, at);
    SoloLeaves(made, at, WindowHeld, held);
  }

  lemma SoloCrashes(e: Environment, sha: Sha)
    ensures var d := Deploy(e, sha, WindowHeld);
            var w := Solo(Files(Some(StateFile(Blocked, e, sha)), HeldByDeploy(0), HeldByDeploy(0)), d);
            Step(Step(w, AdvanceDeploy(0)), CrashDeploy(0)) == Stale(e, sha)
  {
    var d := Deploy(e, sha, WindowHeld);
    var f := Files(Some(StateFile(Blocked, e, sha)), HeldByDeploy(0), HeldByDeploy(0));
    var authorized := f.(state := Some(StateFile(RestartAuthorized, e, sha)));
    var at := d.(stage := Authorized);
    SoloLeaves(f, d, Authorized, authorized);
    assert Step(Solo(f, d), AdvanceDeploy(0)) == Solo(authorized, at);
    SoloLeaves(authorized, at, Gone, authorized.(main := Free, window := Free));
  }

  /** That world is where the crash really leads from an empty one. */
  lemma StaleIsReached(e: Environment, sha: Sha)
    ensures Run(NOTHING, CrashedDeploy(e, sha)) == Stale(e, sha)
    ensures Invariant(Stale(e, sha))
  {
    RunKeepsInvariant(NOTHING, CrashedDeploy(e, sha));
    SoloTakesMain(e, sha);
    SoloTakesWindow(e, sha);
    SoloCrashes(e, sha);
    hide Step, Solo, Stale, Invariant;
    var go, crash := AdvanceDeploy(0), [CrashDeploy(0)] + [];
    var last := [go] + crash;
    var middle := [go] + ([go] + ([go] + last));
    RunThree(NOTHING, BeginDeploy(0, e, sha), go, go, middle);
    var w := Step(Step(Step(NOTHING, BeginDeploy(0, e, sha)), go), go);
    RunThree(w, go, go, go, last);
    var v := Step(Step(Step(w, go), go), go);
    RunCons(v, go, crash);
    RunCons(Step(v, go), CrashDeploy(0), []);
  }

  // ---------- a deploy that overtakes a guard ----------

  /** One guard, the crashed deploy of its SHA, and one deploy after it. */
  function Duo(e: Environment, f: Files, g: Guard, d: Deploy): World {
    World(map[e := f], map[0 := Deploy(e, g.sha, Gone), 1 := d], map[0 := g])
  }

  lemma DuoStep(e: Environment, f: Files, g: Guard, d: Deploy)
    requires g.environment == e && d.environment == e
    ensures forall stage, now :: GuardLeaves(Duo(e, f, g, d), 0, stage, now) == Duo(e, now, g.(stage := stage), d)
    ensures forall stage, now :: DeployLeaves(Duo(e, f, g, d), 1, stage, now) == Duo(e, now, g, d.(stage := stage))
    ensures At(Duo(e, f, g, d), e) == f
  {
    forall stage, now
      ensures GuardLeaves(Duo(e, f, g, d), 0, stage, now) == Duo(e, now, g.(stage := stage), d)
    {
      assert map[e := f][e := now] == map[e := now];
      assert map[0 := g][0 := g.(stage := stage)] == map[0 := g.(stage := stage)];
    }
    forall stage, now
      ensures DeployLeaves(Duo(e, f, g, d), 1, stage, now) == Duo(e, now, g, d.(stage := stage))
    {
      var crashed := Deploy(e, g.sha, Gone);
      assert map[e := f][e := now] == map[e := now];
      assert map[0 := crashed, 1 := d][1 := d.(stage := stage)] == map[0 := crashed, 1 := d.(stage := stage)];
    }
  }

  /** From an empty world: at its last probe guard 0, which asked for mine, allows the start, and the live deploy
      behind it is for theirs. */
  predicate Overtaken(events: seq<Event>, e: Environment, mine: Sha, theirs: Sha) {
    var v := Run(NOTHING, events);
    && 0 in v.guards && v.guards[0].environment == e && v.guards[0].sha == mine
    && Allows(v, 0) && HoldsBothLocks(v, 1, e) && v.deploys[1].sha == theirs
  }

  lemma DuoBegins(e: Environment, mine: Sha, theirs: Sha)
    requires ValidRequest(e, mine)
    ensures Step(Step(Stale(e, mine), BeginGuard(0, e, mine)), BeginDeploy(1, e, theirs))
            == Duo(e, Files(Some(StateFile(RestartAuthorized, e, mine)), Free, Free),
                   Guard(e, mine, Reading), Deploy(e, theirs, Starting))
  {}

  /** The guard reads the authorization, then the new deploy takes the main lock. */
  lemma DeployOvertakes(e: Environment, mine: Sha, theirs: Sha)
    ensures var left := Some(StateFile(RestartAuthorized, e, mine));
            var g, d := Guard(e, mine, Reading), Deploy(e, theirs, Starting);
            Step(Step(Duo(e, Files(left, Free, Free), g, d), AdvanceGuard(0)), AdvanceDeploy(1))
            == Duo(e, Files(left, HeldByDeploy(1), Free), g.(stage := ProbingMain), d.(stage := MainHeld))
  {
    var f := Files(Some(StateFile(RestartAuthorized, e, mine)), Free, Free);
    var g, d := Guard(e, mine, Reading), Deploy(e, theirs, Starting);
    assert Step(Duo(e, f, g, d), AdvanceGuard(0)) == Duo(e, f, g.(stage := ProbingMain), d) by { DuoStep(e, f, g, d); }
    DuoStep(e, f, g.(stage := ProbingMain), d);
  }

  /** The new deploy blocks the state and takes the window lock, then the guard finds the main lock busy. */
  lemma DeployTakesWindow(e: Environment, mine: Sha, theirs: Sha)
    ensures var left, blocked := Some(StateFile(RestartAuthorized, e, mine)), Some(StateFile(Blocked, e, theirs));
            var g, d := Guard(e, mine, ProbingMain), Deploy(e, theirs, MainHeld);
            var locked := Step(Step(Duo(e, Files(left, HeldByDeploy(1), Free), g, d), AdvanceDeploy(1)), AdvanceDeploy(1));
            Step(locked, AdvanceGuard(0)) == Duo(e, Files(blocked, HeldByDeploy(1), HeldByDeploy(1)),
                                                 g.(stage := ProbingWindow), d.(stage := WindowHeld))
  {
    var f := Files(Some(StateFile(RestartAuthorized, e, mine)), HeldByDeploy(1), Free);
    var blocked := f.(state := Some(StateFile(Blocked, e, theirs)));
    var locked := blocked.(window := HeldByDeploy(1));
    var g, d := Guard(e, mine, ProbingMain), Deploy(e, theirs, MainHeld);
    assert Step(Duo(e, f, g, d), AdvanceDeploy(1)) == Duo(e, blocked, g, d.(stage := StateBlocked)) by {
      DuoStep(e, f, g, d);
    }
    assert Step(Duo(e, blocked, g, d.(stage := StateBlocked)), AdvanceDeploy(1))
        == Duo(e, locked, g, d.(stage := WindowHeld)) by {
      DuoStep(e, blocked, g, d.(stage := StateBlocked));
    }
    assert Step(Duo(e, locked, g, d.(stage := WindowHeld)), AdvanceGuard(0))
        == Duo(e, locked, g.(stage := ProbingWindow), d.(stage := WindowHeld)) by {
      DuoStep(e, locked, g, d.(stage := WindowHeld));
    }
  }

  lemma OvertakingRun(e: Environment, mine: Sha, theirs: Sha) returns (events: seq<Event>)
    requires ValidRequest(e, mine)
    ensures Run(Stale(e, mine), events)
            == Duo(e, Files(Some(StateFile(Blocked, e, theirs)), HeldByDeploy(1), HeldByDeploy(1)),
                   Guard(e, mine, ProbingWindow), Deploy(e, theirs, WindowHeld))
  {
    hide Step, Duo, Stale, ValidRequest;
    var stale, guard, deploy := Stale(e, mine), AdvanceGuard(0), AdvanceDeploy(1);
    var last := [deploy] + ([guard] + []);
    var middle := [guard] + ([deploy] + ([deploy] + last));
    var ask, begin := BeginGuard(0, e, mine), BeginDeploy(1, e, theirs);
    events := [ask] + ([begin] + middle);
    DuoBegins(e, mine, theirs);
    DeployOvertakes(e, mine, theirs);
    DeployTakesWindow(e, mine, theirs);
    RunCons(stale, ask, [begin] + middle);
    RunCons(Step(stale, ask), begin, middle);
    var start := Step(Step(stale, ask), begin);
    RunThree(start, guard, deploy, deploy, last);
    var overtaken := Step(Step(Step(start, guard), deploy), deploy);
    RunCons(overtaken, deploy, [guard] + []);
    RunCons(Step(overtaken, deploy), guard, []);
  }

  /** When deploys do interleave, the live deploy may be a successor with another SHA: the guard reads the
      file a crashed deploy left behind, then a new deploy takes both locks before the guard probes them. */
  lemma InterleavedDeployMayBeAnother(e: Environment, mine: Sha, theirs: Sha)
    requires ValidRequest(e, mine)
    ensures exists events :: Overtaken(events, e, mine, theirs)
  {
    var tail := OvertakingRun(e, mine, theirs);
    var end := Run(Stale(e, mine), tail);
    hide Run, ValidRequest, CrashedDeploy, Stale;
    assert Allows(end, 0) && HoldsBothLocks(end, 1, e) && end.deploys[1].sha == theirs;
    assert 0 in end.guards && end.guards[0] == Guard(e, mine, ProbingWindow);
    hide Step, Allows, HoldsBothLocks, Duo;
    StaleIsReached(e, mine);
    RunAppend(NOTHING, CrashedDeploy(e, mine), tail);
    assert Overtaken(CrashedDeploy(e, mine) + tail, e, mine, theirs);
  }

  // ---------- a stale authorization stays dead ----------

  predicate Active(w: World, e: Environment, id: Id) {
    id in w.guards && w.guards[id].environment == e && !w.guards[id].stage.Done?
  }

  predicate AtWindow(w: World, e: Environment, id: Id) {
    Active(w, e, id) && (w.guards[id].stage.ProbingWindow? || w.guards[id].stage.HoldingWindow?)
  }

  function ActiveGuards(w: World, e: Environment): set<Id> { set id | id in w.guards && Active(w, e, id) }

  predicate NoLiveDeploy(w: World, e: Environment) {
    forall id | id in w.deploys :: w.deploys[id].environment == e ==> !HoldsMain(w.deploys[id])
  }

  predicate AloneAtWindow(w: World, e: Environment) {
    forall a, b | a in w.guards && b in w.guards :: AtWindow(w, e, a) && AtWindow(w, e, b) ==> a == b
  }

  /** No deploy of this environment proceeds and no more than n guards of it ever overlap. */
  predicate QuietRun(w: World, events: seq<Event>, e: Environment, n: nat)
    decreases |events|
  {
    && |ActiveGuards(w, e)| <= n
    && (events != [] ==>
          && (events[0].AdvanceDeploy? && events[0].id in w.deploys ==> w.deploys[events[0].id].environment != e)
          && QuietRun(Step(w, events[0]), events[1..], e, n))
  }

  /** The start was allowed although a state file was there. */
  predicate StartedUnderDeploy(w: World, e: Environment, id: Id) {
    id in w.guards && w.guards[id].environment == e && w.guards[id].stage == Done(true, true)
  }

  lemma DeploysStayDead(w: World, event: Event, e: Environment)
    requires NoLiveDeploy(w, e)
    requires event.AdvanceDeploy? && event.id in w.deploys ==> w.deploys[event.id].environment != e
    ensures NoLiveDeploy(Step(w, event), e)
  {}

  /** A window lock that is held although no deploy lives is held by a guard inside its probe. */
  lemma WindowHolder(w: World, e: Environment)
    requires Invariant(w) && NoLiveDeploy(w, e)
    ensures var l := At(w, e).window;
            !Acquirable(l) ==> l.HeldByGuard? && AtWindow(w, e, l.guard) && w.guards[l.guard].stage.HoldingWindow?
    ensures var l := At(w, e).main;
            !Acquirable(l) ==> l.HeldByGuard? && Active(w, e, l.guard) && w.guards[l.guard].stage.HoldingMain?
  {
    var f := At(w, e);
    assert OwnerOk(w, e, f.main) && OwnerOk(w, e, f.window);
    assert f.window.HeldByDeploy? ==> DeployOk(w, f.window.deploy);
    assert f.main.HeldByDeploy? ==> DeployOk(w, f.main.deploy);
    assert f.window.HeldByGuard? ==> GuardOk(w, f.window.guard);
    assert f.main.HeldByGuard? ==> GuardOk(w, f.main.guard);
  }

  /** Only the guard itself reaches the window probe, and only past a busy main lock. */
  lemma ReachesWindow(w: World, event: Event, e: Environment, a: Id)
    ensures AtWindow(Step(w, event), e, a) && !AtWindow(w, e, a) ==>
              event == AdvanceGuard(a) && Active(w, e, a) && !Acquirable(At(w, e).main)
    ensures StartedUnderDeploy(Step(w, event), e, a) && !StartedUnderDeploy(w, e, a) ==>
              event == AdvanceGuard(a) && AtWindow(w, e, a) && !Acquirable(At(w, e).window)
              && w.guards[a].stage.ProbingWindow?
  {}

  lemma SubsetBound(a: set<Id>, b: set<Id>)
    requires a <= b
    ensures |a| <= |b|
  {
    assert b == a + (b - a);
  }

  lemma AtMostTwo(s: set<Id>, a: Id, b: Id, c: Id)
    requires |s| <= 2 && a in s && b in s && c in s
    ensures a == b || b == c || a == c
  {
    SubsetBound({a, b, c}, s);
  }

  lemma StepKeepsStaleDead(w: World, event: Event, e: Environment)
    requires Invariant(w) && NoLiveDeploy(w, e) && |ActiveGuards(w, e)| <= 2 && AloneAtWindow(w, e)
    ensures AloneAtWindow(Step(w, event), e)
    ensures forall id :: StartedUnderDeploy(Step(w, event), e, id) ==> StartedUnderDeploy(w, e, id)
  {
    WindowHolder(w, e);
    var next := Step(w, event);
    forall a, b, c | Active(w, e, a) && Active(w, e, b) && Active(w, e, c) ensures a == b || b == c || a == c {
      AtMostTwo(ActiveGuards(w, e), a, b, c);
    }
    hide Invariant, Step, NoLiveDeploy, ActiveGuards;
    forall a, b | a in next.guards && b in next.guards && AtWindow(next, e, a) && AtWindow(next, e, b)
      ensures a == b
    {
      ReachesWindow(w, event, e, a);
      ReachesWindow(w, event, e, b);
    }
    forall id | StartedUnderDeploy(next, e, id) ensures StartedUnderDeploy(w, e, id) {
      ReachesWindow(w, event, e, id);
    }
  }

  lemma {:induction false} QuietRunStartsNothing(w: World, events: seq<Event>, e: Environment, n: nat)
    requires Invariant(w) && NoLiveDeploy(w, e) && AloneAtWindow(w, e) && QuietRun(w, events, e, n) && n <= 2
    ensures forall id :: StartedUnderDeploy(Run(w, events), e, id) ==> StartedUnderDeploy(w, e, id)
    decreases |events|
  {
    hide Invariant, Step, NoLiveDeploy, AloneAtWindow, StartedUnderDeploy, ActiveGuards;
    if events != [] {
      StepKeepsInvariant(w, events[0]);
      DeploysStayDead(w, events[0], e);
      StepKeepsStaleDead(w, events[0], e);
      QuietRunStartsNothing(Step(w, events[0]), events[1..], e, n);
    }
  }

  /** No deploy of the environment lives and none of its guards is under way, as after a crash; any state file
      may be left behind. */
  predicate DeadStart(w: World, e: Environment) { NoLiveDeploy(w, e) && ActiveGuards(w, e) == {} }

  /** However guard runs interleave from there, two at a time, none allows a start on a present file. */
  lemma StaleAuthorizationStaysDead(w: World, events: seq<Event>, e: Environment, n: nat)
    requires Invariant(w) && DeadStart(w, e) && QuietRun(w, events, e, n) && n <= 2
    ensures forall id :: StartedUnderDeploy(Run(w, events), e, id) ==> StartedUnderDeploy(w, e, id)
  {
    assert forall a | a in w.guards && AtWindow(w, e, a) :: a in ActiveGuards(w, e);
    QuietRunStartsNothing(w, events, e, n);
  }

  /** Three guards with the same request, no deploy, and a stale authorization for it. */
  function Trio(e: Environment, sha: Sha, main: Lock, window: Lock,
                s0: GuardStage, s1: GuardStage, s2: GuardStage): World
  {
    World(map[e := Files(Some(StateFile(RestartAuthorized, e, sha)), main, window)], map[0 := Deploy(e, sha, Gone)],
          map[0 := Guard(e, sha, s0), 1 := Guard(e, sha, s1), 2 := Guard(e, sha, s2)])
  }

  lemma TrioReads(e: Environment, sha: Sha)
    ensures var w := Trio(e, sha, Free, Free, Reading, Reading, Reading);
            Step(Step(Step(w, AdvanceGuard(0)), AdvanceGuard(1)), AdvanceGuard(2))
            == Trio(e, sha, Free, Free, ProbingMain, ProbingMain, ProbingMain)
  {
    assert Step(Trio(e, sha, Free, Free, Reading, Reading, Reading), AdvanceGuard(0))
        == Trio(e, sha, Free, Free, ProbingMain, Reading, Reading);
    assert Step(Trio(e, sha, Free, Free, ProbingMain, Reading, Reading), AdvanceGuard(1))
        == Trio(e, sha, Free, Free, ProbingMain, ProbingMain, Reading);
    assert Step(Trio(e, sha, Free, Free, ProbingMain, ProbingMain, Reading), AdvanceGuard(2))
        == Trio(e, sha, Free, Free, ProbingMain, ProbingMain, ProbingMain);
  }

  lemma TrioProbesMain(e: Environment, sha: Sha)
    ensures var w := Trio(e, sha, Free, Free, ProbingMain, ProbingMain, ProbingMain);
            Step(Step(Step(w, AdvanceGuard(0)), AdvanceGuard(1)), AdvanceGuard(2))
            == Trio(e, sha, HeldByGuard(0), Free, HoldingMain, ProbingWindow, ProbingWindow)
  {
    assert Step(Trio(e, sha, Free, Free, ProbingMain, ProbingMain, ProbingMain), AdvanceGuard(0))
        == Trio(e, sha, HeldByGuard(0), Free, HoldingMain, ProbingMain, ProbingMain);
    assert Step(Trio(e, sha, HeldByGuard(0), Free, HoldingMain, ProbingMain, ProbingMain), AdvanceGuard(1))
        == Trio(e, sha, HeldByGuard(0), Free, HoldingMain, ProbingWindow, ProbingMain);
    assert Step(Trio(e, sha, HeldByGuard(0), Free, HoldingMain, ProbingWindow, ProbingMain), AdvanceGuard(2))
        == Trio(e, sha, HeldByGuard(0), Free, HoldingMain, ProbingWindow, ProbingWindow);
  }

  lemma TrioProbesWindow(e: Environment, sha: Sha)
    ensures var w := Trio(e, sha, HeldByGuard(0), Free, HoldingMain, ProbingWindow, ProbingWindow);
            Step(Step(w, AdvanceGuard(1)), AdvanceGuard(2))
            == Trio(e, sha, HeldByGuard(0), HeldByGuard(1), HoldingMain, HoldingWindow, Done(true, true))
  {
    assert Step(Trio(e, sha, HeldByGuard(0), Free, HoldingMain, ProbingWindow, ProbingWindow), AdvanceGuard(1))
        == Trio(e, sha, HeldByGuard(0), HeldByGuard(1), HoldingMain, HoldingWindow, ProbingWindow);
    assert Step(Trio(e, sha, HeldByGuard(0), HeldByGuard(1), HoldingMain, HoldingWindow, ProbingWindow), AdvanceGuard(2))
        == Trio(e, sha, HeldByGuard(0), HeldByGuard(1), HoldingMain, HoldingWindow, Done(true, true));
  }

  lemma TrioBegins(e: Environment, sha: Sha)
    requires ValidRequest(e, sha)
    ensures Step(Step(Step(Stale(e, sha), BeginGuard(0, e, sha)), BeginGuard(1, e, sha)), BeginGuard(2, e, sha))
            == Trio(e, sha, Free, Free, Reading, Reading, Reading)
  {
    var g := Guard(e, sha, Reading);
    assert Step(Stale(e, sha), BeginGuard(0, e, sha)) == Stale(e, sha).(guards := map[0 := g]);
    assert Step(Stale(e, sha).(guards := map[0 := g]), BeginGuard(1, e, sha)) == Stale(e, sha).(guards := map[0 := g, 1 := g]);
  }

  /** The event is a step of, or begins, one of the three guards 0, 1 and 2 for this environment and SHA. */
  predicate OfTheTrio(event: Event, e: Environment, sha: Sha) {
    (event.BeginGuard? && event.id < 3 && event.environment == e && event.sha == sha)
    || (event.AdvanceGuard? && event.id < 3)
  }

  /** From the stale authorization for e and sha, with every deploy gone, three guards that ask for exactly e and
      sha and nobody else bring one of them to an allowed start. */
  predicate Revived(events: seq<Event>, e: Environment, sha: Sha) {
    var end := Run(Stale(e, sha), events);
    && (forall i | 0 <= i < |events| :: OfTheTrio(events[i], e, sha))
    && end.deploys == Stale(e, sha).deploys && end.guards.Keys == {0, 1, 2}
    && (forall id | id in end.guards :: end.guards[id].environment == e && end.guards[id].sha == sha)
    && StartedUnderDeploy(end, e, 2)
  }

  /** Three overlapping guards are enough to bring a stale authorization back to life: one keeps the main
      lock busy, one keeps the window lock busy, and the third sees both. */
  lemma ThreeGuardsReviveIt(e: Environment, sha: Sha) returns (events: seq<Event>)
    requires ValidRequest(e, sha)
    ensures Run(NOTHING, CrashedDeploy(e, sha)) == Stale(e, sha)
    ensures Revived(events, e, sha)
  {
    StaleIsReached(e, sha);
    var w := Stale(e, sha);
    var b0, b1, b2 := BeginGuard(0, e, sha), BeginGuard(1, e, sha), BeginGuard(2, e, sha);
    var g0, g1, g2 := AdvanceGuard(0), AdvanceGuard(1), AdvanceGuard(2);
    var last := [g1] + ([g2] + []);
    var middle := [g0] + ([g1] + ([g2] + last));
    var reading := [g0] + ([g1] + ([g2] + middle));
    events := [b0] + ([b1] + ([b2] + reading));
    var end := Trio(e, sha, HeldByGuard(0), HeldByGuard(1), HoldingMain, HoldingWindow, Done(true, true));
    assert Run(w, events) == end by {
      hide Step, Trio, Stale, ValidRequest;
      TrioBegins(e, sha);
      TrioReads(e, sha);
      TrioProbesMain(e, sha);
      TrioProbesWindow(e, sha);
      var begun := Step(Step(Step(w, b0), b1), b2);
      RunThree(w, b0, b1, b2, reading);
      var read := Step(Step(Step(begun, g0), g1), g2);
      RunThree(begun, g0, g1, g2, middle);
      var probed := Step(Step(Step(read, g0), g1), g2);
      RunThree(read, g0, g1, g2, last);
      RunCons(probed, g1, [g2] + []);
      RunCons(Step(probed, g1), g2, []);
    }
    assert end.deploys == w.deploys && end.guards.Keys == {0, 1, 2};
    hide Run, Step, Invariant, ValidRequest, Stale;
  }

  // ---------- two guards are the limit ----------

  /** From every world that a run from nothing reaches with no live deploy and no guard under way, every run in
      which at most n guards overlap denies every start on a present state file. */
  ghost predicate DeniesUpTo(e: Environment, n: nat) {
    forall before, events |
      DeadStart(Run(NOTHING, before), e) && QuietRun(Run(NOTHING, before), events, e, n) ::
        forall id :: StartedUnderDeploy(Run(Run(NOTHING, before), events), e, id)
                     ==> StartedUnderDeploy(Run(NOTHING, before), e, id)
  }

  /** The trio's run is quiet as soon as three guards may overlap. */
  lemma {:induction false} TrioIsQuiet(w: World, events: seq<Event>, e: Environment, sha: Sha, n: nat)
    requires w.guards.Keys <= {0, 1, 2} && 3 <= n
    requires forall i | 0 <= i < |events| :: OfTheTrio(events[i], e, sha)
    ensures QuietRun(w, events, e, n)
    decreases |events|
  {
    SubsetBound(ActiveGuards(w, e), {0, 1, 2});
    if events != [] {
      assert OfTheTrio(events[0], e, sha);
      TrioStaysThree(w, events[0], e, sha);
      hide Step, ActiveGuards;
      TrioIsQuiet(Step(w, events[0]), events[1..], e, sha, n);
    }
  }

  lemma TrioStaysThree(w: World, event: Event, e: Environment, sha: Sha)
    requires w.guards.Keys <= {0, 1, 2} && OfTheTrio(event, e, sha)
    ensures Step(w, event).guards.Keys <= {0, 1, 2} && !event.AdvanceDeploy?
  {}

  /** Stale authorization stays dead under every interleaving of at most n overlapping guards if and only if
      n is at most two. */
  lemma TwoGuardsAreTheLimit(e: Environment, sha: Sha, n: nat)
    requires ValidRequest(e, sha)
    ensures DeniesUpTo(e, n) <==> n <= 2
  {
    if n <= 2 {
      forall before, events | DeadStart(Run(NOTHING, before), e) && QuietRun(Run(NOTHING, before), events, e, n)
        ensures forall id :: StartedUnderDeploy(Run(Run(NOTHING, before), events), e, id)
                             ==> StartedUnderDeploy(Run(NOTHING, before), e, id)
      {
        RunKeepsInvariant(NOTHING, before);
        hide Run, Invariant, DeadStart, QuietRun, StartedUnderDeploy;
        StaleAuthorizationStaysDead(Run(NOTHING, before), events, e, n);
      }
    } else {
      var events := ThreeGuardsReviveIt(e, sha);
      var before := CrashedDeploy(e, sha);
      hide Run, Step, CrashedDeploy, ValidRequest;
      TrioIsQuiet(Stale(e, sha), events, e, sha, n);
      assert ActiveGuards(Stale(e, sha), e) == {};
      assert DeadStart(Run(NOTHING, before), e) && QuietRun(Run(NOTHING, before), events, e, n);
      assert !StartedUnderDeploy(Run(NOTHING, before), e, 2);
    }
  }
}
