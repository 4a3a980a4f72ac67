/**
 The deployment wizard: the branch/origin/environment catalogues, the
 simulated deployment of `handleDeploy`, the lock release and the chat
 pre-fill, as a state machine.

 `handleDeploy` is an async function that awaits a 2-second timer per step
 and schedules a 3-second reset at the end; here each timer expiry is an
 explicit transition. The function's closure fixes the selection, the log
 list and its own copy of the steps when it is called; `Run` holds exactly
 that captured context while the deployment is in flight.
 */
module Wizard {
  import opened Wrappers
  import opened Text

  datatype StepStatus = Pending | Running | Completed | StepFailed

  datatype Step = Step(id: string, name: string, status: StepStatus)

  datatype LogStatus = Success | Failure | InProgress

  /** A history entry. `time` is an opaque clock reading. */
  datatype Log = Log(id: string, user: string, time: string, branch: string, environment: string, status: LogStatus)

  datatype Tab = DeployTab | StepsTab | LogsTab

  /** What reading the clock yields at a transition: the id `Date.now()`
      renders to and the `new Date()` timestamp. */
  datatype Stamp = Stamp(id: string, time: string)

  // ---------------------------------------------------------------------------
  // Catalogues and initial data

  const Branches: seq<string> :=
    ["main", "develop", "feature-auth", "feature-dashboard", "fix-payment-bug", "hotfix-security"]

  const Origins: seq<string> := ["origin", "upstream", "fork"]

  function StagingName(k: nat): string {
    "staging-" + Decimal(k)
  }

  /** `staging-1` ... `staging-k`. */
  function StagingNames(k: nat): (r: seq<string>)
    ensures |r| == k
    ensures forall i :: 0 <= i < k ==> r[i] == StagingName(i + 1)
  {
    if k == 0 then [] else StagingNames(k - 1) + [StagingName(k)]
  }

  /** `staging-1` ... `staging-14`, then `ubt`. */
  const Environments: seq<string> := StagingNames(14) + ["ubt"]

  const InitialSteps: seq<Step> := [
    Step("1", "Preparing deployment", Pending),
    Step("2", "Building application", Pending),
    Step("3", "Running tests", Pending),
    Step("4", "Deploying to environment", Pending),
    Step("5", "Health checks", Pending)
  ]

  const InitialLogs: seq<Log> := [
    Log("1", "Sarah Chen", "2024-06-11T14:30:00", "feature-auth", "staging-3", Success),
    Log("2", "Mike Johnson", "2024-06-11T13:15:00", "fix-payment-bug", "staging-1", Failure),
    Log("3", "Emma Rodriguez", "2024-06-11T12:00:00", "main", "ubt", Success)
  ]

  const CurrentUser: string := "Current User"

  // ---------------------------------------------------------------------------
  // State

  /** The context captured by one in-flight `handleDeploy` call: the
      selection and the log list at the time of the click, its own copy of
      the steps, and the index of the step it is waiting on. */
  datatype Run = Run(branch: string, environment: string, logsAtStart: seq<Log>, steps: seq<Step>, index: nat)

  /** The component's state, plus the in-flight deployment and the queue of
      scheduled step resets (each holding the steps it will reset). */
  datatype WizardState = WizardState(
    branch: string,
    origin: string,
    environment: string,
    deploying: bool,
    progress: real,
    steps: seq<Step>,
    logs: seq<Log>,
    locked: bool,
    lockReason: string,
    tab: Tab,
    run: Option<Run>,
    resets: seq<seq<Step>>)

  const InitialWizard: WizardState :=
    WizardState("", "origin", "", false, 0.0, InitialSteps, InitialLogs, false, "", DeployTab, None, [])

  // ---------------------------------------------------------------------------
  // Step lists

  predicate AllStatus(steps: seq<Step>, s: StepStatus) {
    forall k :: 0 <= k < |steps| ==> steps[k].status == s
  }

  /** Same ids and names, position by position. */
  predicate SameShape(a: seq<Step>, b: seq<Step>) {
    |a| == |b| && forall k :: 0 <= k < |a| ==> a[k].id == b[k].id && a[k].name == b[k].name
  }

  /** Every step after `i` has status `s`. */
  predicate TailStatus(steps: seq<Step>, i: nat, s: StepStatus) {
    forall k :: i < k < |steps| ==> steps[k].status == s
  }

  /** The loop is at step `i`: the steps before it are completed, it is
      running, and the ones after it are untouched since the loop began. */
  predicate RunProfile(steps: seq<Step>, i: nat, tail: StepStatus) {
    && i < |steps|
    && (forall k :: 0 <= k < i ==> steps[k].status == Completed)
    && steps[i].status == Running
    && TailStatus(steps, i, tail)
  }

  function SetStatus(steps: seq<Step>, i: nat, s: StepStatus): (r: seq<Step>)
    requires i < |steps|
    ensures SameShape(r, steps)
    ensures r[i].status == s
    ensures forall k :: 0 <= k < |steps| && k != i ==> r[k] == steps[k]
  {
    steps[i := steps[i].(status := s)]
  }

  /** The reset's `steps.map(step => ({ ...step, status: 'pending' }))`. */
  function ResetSteps(steps: seq<Step>): (r: seq<Step>)
    ensures SameShape(r, steps)
    ensures AllStatus(r, Pending)
  {
    seq(|steps|, k requires 0 <= k < |steps| => steps[k].(status := Pending))
  }

  /** `((i + 1) / steps.length) * 100` with `done = i + 1`, in exact
      arithmetic. */
  function Percent(done: nat, n: nat): real
    requires 0 < n
  {
    (done as real / n as real) * 100.0
  }

  // ---------------------------------------------------------------------------
  // Transitions

  /** The end of `handleDeploy`: prepend the success entry to the log list
      the call captured, clear `isDeploying`, schedule the reset. */
  function Finish(w: WizardState, run: Run, now: Stamp): (w': WizardState)
    ensures |w'.logs| == |run.logsAtStart| + 1 && w'.logs[1..] == run.logsAtStart
    ensures w'.logs[0] == Log(now.id, CurrentUser, now.time, run.branch, run.environment, Success)
    ensures !w'.deploying && w'.run.None?
    ensures w'.resets == w.resets + [run.steps]
    ensures w'.steps == w.steps && w'.progress == w.progress && w'.tab == w.tab
    ensures w'.branch == w.branch && w'.environment == w.environment
    ensures w' == w.(logs := w'.logs, deploying := false, run := None, resets := w'.resets)
  {
    w.(logs := [Log(now.id, CurrentUser, now.time, run.branch, run.environment, Success)] + run.logsAtStart,
       deploying := false, run := None, resets := w.resets + [run.steps])
  }

  /** `handleDeploy` up to its first await: nothing happens unless both a
      branch and an environment are selected; otherwise the wizard switches
      to the steps tab with progress 0 and the first step running. With no
      steps at all the loop is empty and the deployment finishes at once,
      which is why the clock reading `now` is taken here too. A second call
      while one is in flight is not possible: the button is disabled. */
  function HandleDeploy(w: WizardState, now: Stamp): (w': WizardState)
    requires w.run.None?
    ensures w.branch == [] || w.environment == [] ==> w' == w
    ensures w.branch != [] && w.environment != [] && |w.steps| > 0 ==>
      && w'.deploying && w'.progress == 0.0 && w'.tab == StepsTab
      && w'.run == Some(Run(w.branch, w.environment, w.logs, w'.steps, 0))
      && SameShape(w'.steps, w.steps)
      && w'.steps[0].status == Running
      && (forall k :: 0 < k < |w.steps| ==> w'.steps[k] == w.steps[k])
      && w'.logs == w.logs && w'.branch == w.branch && w'.environment == w.environment
      && w' == w.(deploying := true, progress := 0.0, tab := StepsTab, steps := w'.steps, run := w'.run)
    ensures w.branch != [] && w.environment != [] && |w.steps| == 0 ==>
      && !w'.deploying && w'.run.None? && w'.tab == StepsTab
      && w'.logs == [Log(now.id, CurrentUser, now.time, w.branch, w.environment, Success)] + w.logs
      && w' == w.(deploying := false, progress := 0.0, tab := StepsTab, logs := w'.logs, resets := w.resets + [w.steps])
  {
    if w.branch == [] || w.environment == [] then w
    else
      var started := w.(deploying := true, progress := 0.0, tab := StepsTab);
      var run := Run(w.branch, w.environment, w.logs, w.steps, 0);
      if |w.steps| == 0 then Finish(started, run, now)
      else
        var local := SetStatus(w.steps, 0, Running);
        started.(steps := local, run := Some(run.(steps := local)))
  }

  /** The 2-second timer of step `i` expires: step `i` is completed, the
      progress becomes `(i + 1) / n * 100`, and either step `i + 1` starts
      running or, after the last step, the deployment finishes. The steps
      shown are the run's own copy, whatever a stale reset did to them. */
  function StepTimer(w: WizardState, now: Stamp): (w': WizardState)
    requires w.run.Some? && w.run.value.index < |w.run.value.steps|
    ensures w'.progress == Percent(w.run.value.index + 1, |w.run.value.steps|)
    ensures SameShape(w'.steps, w.run.value.steps)
    ensures w'.steps[w.run.value.index].status == Completed
    ensures forall k :: 0 <= k < |w.run.value.steps| && k != w.run.value.index && k != w.run.value.index + 1 ==>
      w'.steps[k] == w.run.value.steps[k]
    ensures w.run.value.index + 1 < |w.run.value.steps| ==>
      && w'.run == Some(w.run.value.(steps := w'.steps, index := w.run.value.index + 1))
      && w'.steps[w.run.value.index + 1].status == Running
      && w'.deploying == w.deploying && w'.logs == w.logs && w'.resets == w.resets
    ensures w.run.value.index + 1 == |w.run.value.steps| ==>
      && w'.run.None? && !w'.deploying
      && w'.logs == [Log(now.id, CurrentUser, now.time, w.run.value.branch, w.run.value.environment, Success)] + w.run.value.logsAtStart
      && w'.resets == w.resets + [w'.steps]
    ensures w'.branch == w.branch && w'.environment == w.environment && w'.tab == w.tab
    ensures w'.locked == w.locked && w'.lockReason == w.lockReason
    ensures w.run.value.index + 1 < |w.run.value.steps| ==>
      w' == w.(steps := w'.steps, progress := w'.progress, run := w'.run)
    ensures w.run.value.index + 1 == |w.run.value.steps| ==>
      w' == w.(steps := w'.steps, progress := w'.progress, logs := w'.logs, deploying := false, run := None, resets := w'.resets)
  {
    var run := w.run.value;
    var i := run.index;
    var n := |run.steps|;
    var local := SetStatus(run.steps, i, Completed);
    var shown := w.(steps := local, progress := Percent(i + 1, n));
    if i + 1 < n then
      var next := SetStatus(local, i + 1, Running);
      shown.(steps := next, run := Some(run.(steps := next, index := i + 1)))
    else
      Finish(shown, run.(steps := local), now)
  }

  /** The oldest scheduled 3-second reset expires: every step of the steps it
      holds is pending again, ids and names unchanged, and the progress is 0. */
  function ResetTimer(w: WizardState): (w': WizardState)
    requires |w.resets| > 0
    ensures SameShape(w'.steps, w.resets[0]) && AllStatus(w'.steps, Pending)
    ensures w'.progress == 0.0
    ensures w'.resets == w.resets[1..]
    ensures w'.run == w.run && w'.logs == w.logs && w'.deploying == w.deploying
    ensures w' == w.(steps := w'.steps, progress := 0.0, resets := w.resets[1..])
  {
    w.(steps := ResetSteps(w.resets[0]), progress := 0.0, resets := w.resets[1..])
  }

  /** `handleRelease`: unlocked, no lock reason, nothing else touched. */
  function HandleRelease(w: WizardState): (w': WizardState)
    ensures !w'.locked && w'.lockReason == []
    ensures w' == w.(locked := w'.locked, lockReason := w'.lockReason)
  {
    w.(locked := false, lockReason := "")
  }

  /** The `onDeploy` callback handed to the chat assistant: take over the
      branch and environment exactly as given and switch to the deploy tab. */
  function PreFill(w: WizardState, branch: string, environment: string): (w': WizardState)
    ensures w'.branch == branch && w'.environment == environment && w'.tab == DeployTab
    ensures w' == w.(branch := w'.branch, environment := w'.environment, tab := w'.tab)
  {
    w.(branch := branch, environment := environment, tab := DeployTab)
  }

  // ---------------------------------------------------------------------------
  // The state machine

  datatype Event =
    | SelectOrigin(origin: string)
    | SelectBranch(branch: string)
    | SelectEnvironment(environment: string)
    | SelectTab(tab: Tab)
    | ClickDeploy(now: Stamp)
    | StepTimerExpires(now: Stamp)
    | ResetTimerExpires
    | ClickRelease
    | ChatDeploy(branch: string, environment: string)

  /** When an event can occur: the pickers offer only catalogue entries; the
      deploy button is shown only when unlocked and is disabled while
      deploying; the release button is shown only when locked; a timer
      expires only while it is scheduled. */
  predicate Enabled(w: WizardState, e: Event) {
    match e
    case SelectOrigin(o) => o in Origins
    case SelectBranch(b) => b in Branches
    case SelectEnvironment(env) => env in Environments
    case SelectTab(_) => true
    case ClickDeploy(_) => !w.locked && !w.deploying && w.run.None?
    case StepTimerExpires(_) => w.run.Some? && w.run.value.index < |w.run.value.steps|
    case ResetTimerExpires => |w.resets| > 0
    case ClickRelease => w.locked
    case ChatDeploy(_, _) => true
  }

  /** One event. The pickers and the tabs touch only their own field; only
      the release button touches the lock; the history changes only when a
      deployment ends, which happens at a step timer (or at the click itself
      for an empty step list). */
  function Next(w: WizardState, e: Event): (r: WizardState)
    requires Enabled(w, e)
    ensures e.SelectOrigin? ==> r == w.(origin := e.origin) && r.origin in Origins
    ensures e.SelectBranch? ==> r == w.(branch := e.branch) && r.branch in Branches
    ensures e.SelectEnvironment? ==> r == w.(environment := e.environment) && r.environment in Environments
    ensures e.SelectTab? ==> r == w.(tab := e.tab)
    ensures !e.ClickRelease? ==> r.locked == w.locked && r.lockReason == w.lockReason
    ensures r.logs != w.logs ==> e.StepTimerExpires? || e.ClickDeploy?
    ensures r.run.Some? && w.run.None? ==> e.ClickDeploy?
  {
    match e
    case SelectOrigin(o) => w.(origin := o)
    case SelectBranch(b) => w.(branch := b)
    case SelectEnvironment(env) => w.(environment := env)
    case SelectTab(t) => w.(tab := t)
    case ClickDeploy(now) => HandleDeploy(w, now)
    case StepTimerExpires(now) => StepTimer(w, now)
    case ResetTimerExpires => ResetTimer(w)
    case ClickRelease => HandleRelease(w)
    case ChatDeploy(b, env) => PreFill(w, b, env)
  }

  /** What holds of an in-flight deployment: it has a non-empty selection,
      its steps are the five steps in order, the loop is at a valid step with
      the earlier ones completed and the later ones untouched (all pending,
      or all completed when the previous run's reset had not yet fired), and
      the log list it captured is still the current one. */
  ghost predicate RunInv(run: Run, logs: seq<Log>) {
    && run.branch != [] && run.environment != []
    && SameShape(run.steps, InitialSteps)
    && (RunProfile(run.steps, run.index, Pending) || RunProfile(run.steps, run.index, Completed))
    && run.logsAtStart == logs
  }

  ghost predicate Inv(w: WizardState) {
    && SameShape(w.steps, InitialSteps)
    && (forall k :: 0 <= k < |w.resets| ==> SameShape(w.resets[k], InitialSteps) && AllStatus(w.resets[k], Completed))
    && (w.deploying <==> w.run.Some?)
    && !w.locked && w.lockReason == []
    && (w.run.Some? ==> RunInv(w.run.value, w.logs))
    && (w.run.Some? ==> w.progress == 0.0 || w.progress == Percent(w.run.value.index, |InitialSteps|))
    && (w.run.None? ==> w.progress == 0.0 || w.progress == 100.0)
    && (w.run.None? ==> AllStatus(w.steps, Pending) || AllStatus(w.steps, Completed))
    && (w.run.None? && w.resets == [] ==> AllStatus(w.steps, Pending))
  }

  lemma InitialInv()
    ensures Inv(InitialWizard)
  {
  }

  lemma PercentBounds(done: nat, n: nat)
    requires 0 < n && done <= n
    ensures 0.0 <= Percent(done, n) <= 100.0
    ensures Percent(n, n) == 100.0 && Percent(0, n) == 0.0
  {
  }

  /** Every enabled event keeps the invariant. */
  lemma NextKeepsInv(w: WizardState, e: Event)
    requires Inv(w) && Enabled(w, e)
    ensures Inv(Next(w, e))
  {
    match e
    case ClickDeploy(now) => DeployKeepsInv(w, now);
    case StepTimerExpires(now) => StepTimerKeepsInv(w, now);
    case ResetTimerExpires => ResetKeepsInv(w);
    case _ =>
  }

  lemma DeployKeepsInv(w: WizardState, now: Stamp)
    requires Inv(w) && w.run.None?
    ensures Inv(HandleDeploy(w, now))
  {
    if w.branch != [] && w.environment != [] {
      var w' := HandleDeploy(w, now);
      var run := w'.run.value;
      PercentBounds(0, |InitialSteps|);
      if AllStatus(w.steps, Pending) {
        assert RunProfile(run.steps, 0, Pending);
      } else {
        assert RunProfile(run.steps, 0, Completed);
      }
    }
  }

  lemma StepTimerKeepsInv(w: WizardState, now: Stamp)
    requires Inv(w) && w.run.Some? && w.run.value.index < |w.run.value.steps|
    ensures Inv(StepTimer(w, now))
  {
    var run := w.run.value;
    var i := run.index;
    var n := |run.steps|;
    var w' := StepTimer(w, now);
    PercentBounds(i + 1, n);
    var tail := if RunProfile(run.steps, i, Pending) then Pending else Completed;
    assert RunProfile(run.steps, i, tail);
    if i + 1 < n {
      var next := w'.run.value.steps;
      forall k | i + 1 < k < n
        ensures next[k].status == tail
      {
        assert next[k] == run.steps[k];
        assert TailStatus(run.steps, i, tail);
      }
      assert RunProfile(next, i + 1, tail);
    } else {
      assert AllStatus(w'.steps, Completed);
    }
  }

  lemma ResetKeepsInv(w: WizardState)
    requires Inv(w) && |w.resets| > 0
    ensures Inv(ResetTimer(w))
  {
    var w' := ResetTimer(w);
    assert forall k :: 0 <= k < |w'.resets| ==> w'.resets[k] == w.resets[k + 1];
  }

  // ---------------------------------------------------------------------------
  // The catalogue

  /** The environment list is `staging-1` to `staging-14` followed by `ubt`:
      fifteen entries, no two alike. */
  lemma EnvironmentCatalogue()
    ensures |Environments| == 15
    ensures forall i :: 0 <= i < 14 ==> Environments[i] == "staging-" + Decimal(i + 1)
    ensures Environments[14] == "ubt"
    ensures forall i, j :: 0 <= i < j < |Environments| ==> Environments[i] != Environments[j]
  {
    forall i, j | 0 <= i < j < |Environments|
      ensures Environments[i] != Environments[j]
    {
      if j < 14 {
        if Environments[i] == Environments[j] {
          var a, b := Decimal(i + 1), Decimal(j + 1);
          assert ("staging-" + a)[8..] == a;
          assert ("staging-" + b)[8..] == b;
          DecimalInjective(i + 1, j + 1);
        }
      } else {
        assert |Environments[i]| > 8;
      }
    }
  }

  /** The same list, written out. */
  lemma EnvironmentsSpelledOut()
    ensures Environments == [
      "staging-1", "staging-2", "staging-3", "staging-4", "staging-5",
      "staging-6", "staging-7", "staging-8", "staging-9", "staging-10",
      "staging-11", "staging-12", "staging-13", "staging-14", "ubt"]
  {
    assert StagingName(1) == "staging-1";
    assert StagingName(2) == "staging-2";
    assert StagingName(3) == "staging-3";
    assert StagingName(4) == "staging-4";
    assert StagingName(5) == "staging-5";
    assert StagingName(6) == "staging-6";
    assert StagingName(7) == "staging-7";
    assert StagingName(8) == "staging-8";
    assert StagingName(9) == "staging-9";
    assert StagingName(10) == "staging-10";
    assert StagingName(11) == "staging-11";
    assert StagingName(12) == "staging-12";
    assert StagingName(13) == "staging-13";
    assert StagingName(14) == "staging-14";
  }

  // ---------------------------------------------------------------------------
  // Progress

  /** Progress strictly increases from one completed step to the next and
      reaches exactly 100 when all steps are completed. */
  lemma PercentIncreases(done: nat, n: nat)
    requires 0 < n && done < n
    ensures Percent(done, n) < Percent(done + 1, n)
    ensures Percent(n, n) == 100.0
  {
    assert (done + 1) as real / n as real - done as real / n as real == 1.0 / n as real;
  }

  /** With the five fixed steps progress moves in steps of 20. */
  lemma FiveStepPercents(done: nat)
    requires done <= |InitialSteps|
    ensures Percent(done, |InitialSteps|) == 20.0 * done as real
  {
  }

  // ---------------------------------------------------------------------------
  // A whole deployment

  /** The number of step timers among the events. */
  function StepTimers(es: seq<Event>): (r: nat)
    ensures r <= |es|
  {
    if es == [] then 0
    else (if es[0].StepTimerExpires? then 1 else 0) + StepTimers(es[1..])
  }

  /** Every event of `es` is enabled when it comes, starting from `d`. */
  ghost predicate Trace(d: WizardState, es: seq<Event>)
    decreases |es|
  {
    es == [] || (Enabled(d, es[0]) && Trace(Next(d, es[0]), es[1..]))
  }

  /** The wizard after the events of a trace. */
  ghost function After(d: WizardState, es: seq<Event>): WizardState
    requires Trace(d, es)
    decreases |es|
  {
    if es == [] then d else After(Next(d, es[0]), es[1..])
  }

  /** The run's own copy of the steps is at step `k` of a deployment
      started from the steps `shown`: step `k` is running, the earlier ones
      are completed, the later ones are as they were shown at the click. */
  predicate RunAt(steps: seq<Step>, shown: seq<Step>, k: nat) {
    && SameShape(steps, shown) && SameShape(steps, InitialSteps)
    && k < |steps|
    && (forall j :: 0 <= j < k ==> steps[j].status == Completed)
    && steps[k].status == Running
    && (forall j :: k < j < |steps| ==> steps[j] == shown[j])
  }

  /** A deployment clicked in the idle wizard `w` is in flight at step `k`:
      its steps are at step `k`, its selection and captured log list are
      those of the click, the history is unchanged, and no reset has been
      added since the click. The steps and progress on screen are not part
      of this: a stale reset may have blanked them (see `Shown`). */
  ghost predicate InFlight(d: WizardState, w: WizardState, k: nat) {
    && d.run.Some? && d.run.value.index == k
    && RunAt(d.run.value.steps, w.steps, k)
    && d.run.value.branch == w.branch && d.run.value.environment == w.environment
    && d.run.value.logsAtStart == w.logs && d.logs == w.logs
    && d.deploying
    && |d.resets| <= |w.resets|
  }

  /** The screen shows the run's own steps and the progress of `k` steps. */
  ghost predicate Shown(d: WizardState, k: nat) {
    && d.run.Some? && d.steps == d.run.value.steps
    && d.progress == Percent(k, |InitialSteps|)
  }

  lemma DeploymentStarts(w: WizardState, start: Stamp)
    requires Inv(w) && w.run.None?
    requires w.branch != [] && w.environment != []
    ensures InFlight(HandleDeploy(w, start), w, 0) && Shown(HandleDeploy(w, start), 0)
    ensures HandleDeploy(w, start).tab == StepsTab
  {
  }

  /** A step timer moves a run in flight from step `k` to step `k + 1` and
      shows it, whatever a stale reset did to the screen before. */
  lemma DeploymentAdvances(d: WizardState, w: WizardState, k: nat, now: Stamp)
    requires InFlight(d, w, k) && k + 1 < |InitialSteps|
    ensures Enabled(d, StepTimerExpires(now))
    ensures InFlight(StepTimer(d, now), w, k + 1) && Shown(StepTimer(d, now), k + 1)
  {
    var rs := d.run.value.steps;
    var rs' := StepTimer(d, now).run.value.steps;
    forall j | k + 1 < j < |rs'|
      ensures rs'[j] == w.steps[j]
    {
      assert rs'[j] == rs[j];
    }
  }

  /** Every other enabled event leaves a run in flight where it is: a stale
      reset only blanks the screen, the pickers, the tabs and the chat
      pre-fill touch only the selection and the tab. */
  lemma OtherEventsKeepInFlight(d: WizardState, w: WizardState, k: nat, e: Event)
    requires InFlight(d, w, k) && Enabled(d, e) && !e.StepTimerExpires?
    ensures InFlight(Next(d, e), w, k)
    ensures e.ResetTimerExpires? ==>
      Next(d, e).resets == d.resets[1..] && AllStatus(Next(d, e).steps, Pending) && Next(d, e).progress == 0.0
  {
  }

  /** The last step timer of a run in flight ends it: exactly the success
      entry for the clicked selection is put in front of the history, every
      step is completed, progress is 100 and the reset is scheduled. */
  lemma DeploymentFinishes(d: WizardState, w: WizardState, now: Stamp)
    requires InFlight(d, w, |InitialSteps| - 1)
    ensures Enabled(d, StepTimerExpires(now))
    ensures var f := StepTimer(d, now);
      && f.logs == [Log(now.id, CurrentUser, now.time, w.branch, w.environment, Success)] + w.logs
      && !f.deploying && f.run.None?
      && AllStatus(f.steps, Completed) && SameShape(f.steps, w.steps)
      && f.progress == 100.0
      && f.resets == d.resets + [f.steps]
  {
    PercentIncreases(|InitialSteps| - 1, |InitialSteps|);
  }

  /** Along any trace of enabled events, a run in flight is at the step
      given by the number of step timers so far. */
  lemma {:induction false} InFlightAlongTrace(d: WizardState, w: WizardState, k: nat, es: seq<Event>)
    requires InFlight(d, w, k) && Trace(d, es) && k + StepTimers(es) < |InitialSteps|
    ensures InFlight(After(d, es), w, k + StepTimers(es))
    decreases |es|
  {
    if es != [] {
      var e := es[0];
      if e.StepTimerExpires? {
        DeploymentAdvances(d, w, k, e.now);
        InFlightAlongTrace(Next(d, e), w, k + 1, es[1..]);
      } else {
        OtherEventsKeepInFlight(d, w, k, e);
        InFlightAlongTrace(Next(d, e), w, k, es[1..]);
      }
    }
  }

  /** After a deploy click and any trace of enabled events holding `k` step
      timers, `k` below the step count, the deployment is at step `k`. Other
      events may come in between, among them the previous run's reset when
      the click came before it fired. */
  lemma DeploymentInProgress(w: WizardState, start: Stamp, es: seq<Event>)
    requires Inv(w) && w.run.None?
    requires w.branch != [] && w.environment != []
    requires Trace(HandleDeploy(w, start), es) && StepTimers(es) < |InitialSteps|
    ensures InFlight(After(HandleDeploy(w, start), es), w, StepTimers(es))
  {
    DeploymentStarts(w, start);
    InFlightAlongTrace(HandleDeploy(w, start), w, 0, es);
  }

  /** After a deploy click, any trace of enabled events holding all but one
      step timer, and the last step timer: exactly one entry, naming the
      clicked branch and environment with status success, has been put in
      front of the earlier log entries; every step is completed, progress is
      100, `isDeploying` is cleared and one reset is scheduled. */
  lemma DeploymentCompletes(w: WizardState, start: Stamp, es: seq<Event>, now: Stamp)
    requires Inv(w) && w.run.None?
    requires w.branch != [] && w.environment != []
    requires Trace(HandleDeploy(w, start), es) && StepTimers(es) == |InitialSteps| - 1
    ensures var d := After(HandleDeploy(w, start), es);
      && Enabled(d, StepTimerExpires(now))
      && var f := Next(d, StepTimerExpires(now));
      && f.logs == [Log(now.id, CurrentUser, now.time, w.branch, w.environment, Success)] + w.logs
      && !f.deploying && f.run.None?
      && AllStatus(f.steps, Completed) && SameShape(f.steps, w.steps)
      && f.progress == 100.0
      && f.resets == d.resets + [f.steps]
  {
    DeploymentInProgress(w, start, es);
    DeploymentFinishes(After(HandleDeploy(w, start), es), w, now);
  }

  /** With no reset outstanding at the click, the reset the deployment
      schedules is the only one, and it restores the steps shown before the
      click with progress 0. */
  lemma DeploymentResets(w: WizardState, start: Stamp, es: seq<Event>, now: Stamp)
    requires Inv(w) && w.run.None? && w.resets == []
    requires w.branch != [] && w.environment != []
    requires Trace(HandleDeploy(w, start), es) && StepTimers(es) == |InitialSteps| - 1
    ensures var d := After(HandleDeploy(w, start), es);
      && d.run.Some? && d.run.value.index < |d.run.value.steps|
      && var f := StepTimer(d, now);
      && |f.resets| == 1
      && ResetTimer(f).steps == w.steps && ResetTimer(f).progress == 0.0 && ResetTimer(f).resets == []
  {
    DeploymentInProgress(w, start, es);
    DeploymentCompletes(w, start, es, now);
    var d := After(HandleDeploy(w, start), es);
    assert d.resets == [];
    var f := StepTimer(d, now);
    assert f == Next(d, StepTimerExpires(now));
    var r := ResetTimer(f).steps;
    assert |r| == |w.steps|;
    forall k | 0 <= k < |r|
      ensures r[k] == w.steps[k]
    {
    }
  }

  // ---------------------------------------------------------------------------
  // The lock and the pre-fill

  /** Nothing in the component ever sets the lock: in every state reachable
      from the initial one the wizard is unlocked with no reason, so the
      release button never shows. */
  lemma NeverLocked(w: WizardState)
    requires Inv(w)
    ensures !w.locked && w.lockReason == [] && forall e :: Enabled(w, e) ==> !e.ClickRelease?
  {
  }

  /** The pre-fill accepts names that are in neither catalogue. */
  lemma PreFillIsUnchecked(w: WizardState)
    ensures var w' := PreFill(w, "no-such-branch", "production");
      && w'.branch !in Branches && w'.environment !in Environments
      && w'.branch == "no-such-branch" && w'.environment == "production"
  {
    EnvironmentsSpelledOut();
  }

  /** A pre-fill while a deployment is in flight does not retarget it: the
      next step timer records the same history as without the pre-fill. */
  lemma PreFillDuringRun(w: WizardState, branch: string, environment: string, now: Stamp)
    requires w.run.Some? && w.run.value.index < |w.run.value.steps|
    ensures StepTimer(PreFill(w, branch, environment), now).logs == StepTimer(w, now).logs
    ensures StepTimer(PreFill(w, branch, environment), now).run == StepTimer(w, now).run
  {
  }
}
