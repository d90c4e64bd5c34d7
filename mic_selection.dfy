/** `setMic`: the sequence of retried page interactions that selects the desired
    microphone, with its fallback through the full settings dialog. */
module MicSelection {
  import opened Outcome
  import opened PageRules
  import Backoff

  /** What the page shows when one invocation of a step runs: the inner text of the
      microphone selector (if present), the elements carrying a device id, the number of
      "More options" buttons, the window width, whether a "Leave call" button exists,
      the entries of the call-options menu and whether a "Close dialog" button exists. */
  datatype Page = Page(
    micSelector: Option<string>,
    deviceOptions: seq<DeviceOption>,
    moreOptionsButtons: nat,
    innerWidth: int,
    leaveCallPresent: bool,
    callOptionsMenu: seq<string>,
    closeButtonPresent: bool)

  /** `pages(site, k)` is the page seen by the `k`-th invocation (from 0) of the step at
      position `site` of `setMic` (0 to 2 on the primary path, 3 to 8 on the fallback). */
  type Pages = (nat, nat) -> Page

  datatype Action = OpenMicSelector | PickMic | VerifyMic | OpenMoreOptions | OpenSettings | CloseSettings

  /** One retried step: what each invocation does, its retry budget, and the fixed sleep
      each invocation makes before touching the page. */
  datatype Step = Step(action: Action, maxRetries: nat, settle: nat)

  /** The microphone selector is on the lobby page itself on big screens. */
  const PrimaryPath: seq<Step> := [
    Step(OpenMicSelector, 2, 0),
    Step(PickMic, Backoff.DefaultMaxRetries, 200),
    Step(VerifyMic, Backoff.DefaultMaxRetries, 0)]

  /** Otherwise: More options, Settings, then the selector inside the dialog. */
  const FallbackPath: seq<Step> := [
    Step(OpenMoreOptions, Backoff.DefaultMaxRetries, 0),
    Step(OpenSettings, Backoff.DefaultMaxRetries, 0),
    Step(OpenMicSelector, Backoff.DefaultMaxRetries, 700),
    Step(PickMic, Backoff.DefaultMaxRetries, 200),
    Step(VerifyMic, Backoff.DefaultMaxRetries, 0),
    Step(CloseSettings, Backoff.DefaultMaxRetries, 0)]

  function Discard(r: Attempt<nat, string>): Attempt<(), string> {
    match r
    case Returned(_) => Returned(())
    case Threw(e) => Threw(e)
  }

  /** One invocation of a step's operation on the page it sees. */
  function Perform(action: Action, page: Page, micName: string, micId: Option<string>): Attempt<(), string> {
    match action
    case OpenMicSelector => ClickMicrophoneSelector(page.micSelector)
    case PickMic => Discard(ClickDesiredMic(page.deviceOptions, micName, micId))
    case VerifyMic => CheckIfDesiredMicSelected(page.micSelector, micName)
    case OpenMoreOptions => Discard(ClickMoreOptionsButton(page.moreOptionsButtons, page.innerWidth, page.leaveCallPresent))
    case OpenSettings => Discard(ClickSettingsButton(page.callOptionsMenu))
    case CloseSettings => CloseDialog(page.closeButtonPresent)
  }

  /** The step at position `site`, wrapped in the backoff combinator with its budget
      and the default first delay. */
  function RunStep(site: nat, step: Step, pages: Pages, micName: string, micId: Option<string>): Backoff.Run<(), string> {
    Backoff.WithExponentialBackoff(
      k => Perform(step.action, pages(site, k), micName, micId),
      0, step.maxRetries, Backoff.DefaultDelay)
  }

  /** The last step run threw after exhausting its retries. */
  predicate Failed(runs: seq<Backoff.Run<(), string>>) {
    runs != [] && runs[|runs| - 1].result.Threw?
  }

  /** `runs` are the first steps of `path`, each run at its position, and every one
      but the last returned. */
  predicate RanPrefix(path: seq<Step>, firstSite: nat, runs: seq<Backoff.Run<(), string>>,
                      pages: Pages, micName: string, micId: Option<string>) {
    |runs| <= |path|
    && (forall i :: 0 <= i < |runs| ==> runs[i] == RunStep(firstSite + i, path[i], pages, micName, micId))
    && (forall i :: 0 <= i < |runs| - 1 ==> runs[i].result.Returned?)
  }

  /** `runs` is what awaiting the steps of `path` one after the other produces: each
      step at its position runs only if every earlier one returned, and the sequence
      stops only at the end of the path or at a step that threw. */
  predicate RanInOrder(path: seq<Step>, firstSite: nat, runs: seq<Backoff.Run<(), string>>,
                       pages: Pages, micName: string, micId: Option<string>) {
    RanPrefix(path, firstSite, runs, pages, micName, micId)
    && (|runs| < |path| ==> Failed(runs))
  }

  /** Running the next step of `path` extends a prefix that has not failed. */
  lemma RanPrefixExtend(path: seq<Step>, firstSite: nat, runs: seq<Backoff.Run<(), string>>,
                        r: Backoff.Run<(), string>, pages: Pages, micName: string, micId: Option<string>)
    requires RanPrefix(path, firstSite, runs, pages, micName, micId)
    requires |runs| < |path| && !Failed(runs)
    requires r == RunStep(firstSite + |runs|, path[|runs|], pages, micName, micId)
    ensures RanPrefix(path, firstSite, runs + [r], pages, micName, micId)
  {
    var next := runs + [r];
    forall i | 0 <= i < |next| ensures next[i] == RunStep(firstSite + i, path[i], pages, micName, micId) {
      if i < |runs| {
        assert next[i] == runs[i];
      }
    }
    forall i | 0 <= i < |next| - 1 ensures next[i].result.Returned? {
      assert next[i] == runs[i];
    }
  }

  /** Awaits the steps of `path` one after the other, as the consecutive `await`s of
      one `try` or `catch` block do: a step that exhausts its retries throws, and the
      steps after it do not run. */
  method RunPath(path: seq<Step>, firstSite: nat, pages: Pages, micName: string, micId: Option<string>)
    returns (runs: seq<Backoff.Run<(), string>>)
    ensures RanInOrder(path, firstSite, runs, pages, micName, micId)
  {
    runs := [];
    while |runs| < |path| && !Failed(runs)
      invariant RanPrefix(path, firstSite, runs, pages, micName, micId)
      decreases |path| - |runs|
    {
      var r := RunStep(firstSite + |runs|, path[|runs|], pages, micName, micId);
      RanPrefixExtend(path, firstSite, runs, r, pages, micName, micId);
      runs := runs + [r];
    }
  }

  /** `setMic({ micName, micId })`. Returns the runs of the primary steps, the runs of
      the fallback steps, and how the call settles. With no name nothing runs. The
      fallback runs exactly when a primary step exhausted its retries; a fallback step
      that exhausts its retries makes the whole call throw its last error. */
  method SetMic(micName: Option<string>, micId: Option<string>, pages: Pages)
    returns (primary: seq<Backoff.Run<(), string>>, fallback: seq<Backoff.Run<(), string>>, outcome: Attempt<(), string>)
    ensures !Truthy(micName) ==> primary == [] && fallback == [] && outcome == Returned(())
    ensures Truthy(micName) ==> RanInOrder(PrimaryPath, 0, primary, pages, micName.value, micId)
    ensures fallback != [] <==> Truthy(micName) && Failed(primary)
    ensures fallback != [] ==> RanInOrder(FallbackPath, |PrimaryPath|, fallback, pages, micName.value, micId)
    ensures outcome.Threw? <==> Failed(fallback)
    ensures Failed(fallback) ==> outcome == fallback[|fallback| - 1].result
  {
    primary, fallback, outcome := [], [], Returned(());
    if !Truthy(micName) {
      return;
    }
    // try
    primary := RunPath(PrimaryPath, 0, pages, micName.value, micId);
    if Failed(primary) {
      // catch: its failures are not caught
      fallback := RunPath(FallbackPath, |PrimaryPath|, pages, micName.value, micId);
      if Failed(fallback) {
        outcome := fallback[|fallback| - 1].result;
      }
    }
  }

  /** The most invocations running `path` can make: each step's budget plus one. */
  function Budget(path: seq<Step>): nat {
    if path == [] then 0 else path[0].maxRetries + 1 + Budget(path[1..])
  }

  function TotalCalls(runs: seq<Backoff.Run<(), string>>): nat {
    if runs == [] then 0 else runs[0].calls + TotalCalls(runs[1..])
  }

  /** The time a run of `path` spends asleep: each invocation's settle sleep and the
      backoff sleeps between invocations. */
  function Slept(path: seq<Step>, runs: seq<Backoff.Run<(), string>>): nat
    requires |runs| <= |path|
  {
    if runs == [] then 0
    else runs[0].calls * path[0].settle + Backoff.Sum(runs[0].waits) + Slept(path[1..], runs[1..])
  }

  /** The most a run of `path` can sleep: every step spends its whole budget. */
  function SleepBudget(path: seq<Step>): nat {
    if path == [] then 0
    else (path[0].maxRetries + 1) * path[0].settle
         + Backoff.DefaultDelay * (Backoff.Pow2(path[0].maxRetries) - 1)
         + SleepBudget(path[1..])
  }

  /** Each run respects its step's retry budget and follows the default backoff
      schedule. */
  predicate WithinStepBudgets(path: seq<Step>, runs: seq<Backoff.Run<(), string>>) {
    |runs| <= |path|
    && forall i :: 0 <= i < |runs| ==>
         1 <= runs[i].calls <= path[i].maxRetries + 1
         && runs[i].waits == Backoff.Schedule(Backoff.DefaultDelay, runs[i].calls - 1)
  }

  lemma RanWithinStepBudgets(path: seq<Step>, firstSite: nat, runs: seq<Backoff.Run<(), string>>,
                             pages: Pages, micName: string, micId: Option<string>)
    requires RanPrefix(path, firstSite, runs, pages, micName, micId)
    ensures WithinStepBudgets(path, runs)
  {
    forall i | 0 <= i < |runs|
      ensures 1 <= runs[i].calls <= path[i].maxRetries + 1
      ensures runs[i].waits == Backoff.Schedule(Backoff.DefaultDelay, runs[i].calls - 1)
    {
      assert runs[i] == RunStep(firstSite + i, path[i], pages, micName, micId);
    }
  }

  lemma WithinStepBudgetsTail(path: seq<Step>, runs: seq<Backoff.Run<(), string>>)
    requires WithinStepBudgets(path, runs) && runs != []
    ensures WithinStepBudgets(path[1..], runs[1..])
  {
    var tail := runs[1..];
    forall i | 0 <= i < |tail|
      ensures 1 <= tail[i].calls <= path[1..][i].maxRetries + 1
      ensures tail[i].waits == Backoff.Schedule(Backoff.DefaultDelay, tail[i].calls - 1)
    {
      assert tail[i] == runs[i + 1] && path[1..][i] == path[i + 1];
    }
  }

  lemma {:induction false} CallsBound(path: seq<Step>, runs: seq<Backoff.Run<(), string>>)
    requires WithinStepBudgets(path, runs)
    ensures TotalCalls(runs) <= Budget(path)
    decreases |runs|
  {
    if runs != [] {
      WithinStepBudgetsTail(path, runs);
      CallsBound(path[1..], runs[1..]);
    }
  }

  lemma {:induction false} SleepBound(path: seq<Step>, runs: seq<Backoff.Run<(), string>>)
    requires WithinStepBudgets(path, runs)
    ensures Slept(path, runs) <= SleepBudget(path)
    decreases |runs|
  {
    if runs != [] {
      WithinStepBudgetsTail(path, runs);
      SleepBound(path[1..], runs[1..]);
      var r, step := runs[0], path[0];
      StepSleepWithinBudget(step, r);
      var here := r.calls * step.settle + Backoff.Sum(r.waits);
      assert Slept(path, runs) == here + Slept(path[1..], runs[1..]);
    }
  }

  /** Running the steps of a path never invokes their operations more often, in all,
      than the path's budget allows, and never sleeps longer than its sleep budget. */
  lemma PathWithinBudget(path: seq<Step>, firstSite: nat, runs: seq<Backoff.Run<(), string>>,
                         pages: Pages, micName: string, micId: Option<string>)
    requires RanPrefix(path, firstSite, runs, pages, micName, micId)
    ensures TotalCalls(runs) <= Budget(path)
    ensures Slept(path, runs) <= SleepBudget(path)
  {
    RanWithinStepBudgets(path, firstSite, runs, pages, micName, micId);
    CallsBound(path, runs);
    SleepBound(path, runs);
  }

  /** One step sleeps at most its budget: every invocation's settle sleep plus the
      whole backoff schedule. */
  lemma StepSleepWithinBudget(step: Step, r: Backoff.Run<(), string>)
    requires 1 <= r.calls <= step.maxRetries + 1
    requires r.waits == Backoff.Schedule(Backoff.DefaultDelay, r.calls - 1)
    ensures r.calls * step.settle + Backoff.Sum(r.waits)
      <= (step.maxRetries + 1) * step.settle + Backoff.DefaultDelay * (Backoff.Pow2(step.maxRetries) - 1)
  {
    Backoff.ScheduleWithin(Backoff.DefaultDelay, r.calls - 1, step.maxRetries);
    Backoff.MulMonotone(step.settle, r.calls, step.maxRetries + 1);
    assert r.calls * step.settle == step.settle * r.calls;
    assert (step.maxRetries + 1) * step.settle == step.settle * (step.maxRetries + 1);
  }

  /** The primary path makes at most 13 invocations and sleeps at most 2650 ms; the
      fallback at most 30 invocations and 9000 ms. */
  lemma PathBudgets()
    ensures Budget(PrimaryPath) == 13 && SleepBudget(PrimaryPath) == 2650
    ensures Budget(FallbackPath) == 30 && SleepBudget(FallbackPath) == 9000
  {
    assert Backoff.Pow2(2) == 4 && Backoff.Pow2(4) == 16;
    var p := PrimaryPath;
    assert p[1..][1..][1..] == [];
    assert Budget(p[1..][1..]) == 5 && SleepBudget(p[1..][1..]) == 750;
    assert Budget(p[1..]) == 10 && SleepBudget(p[1..]) == 2500;
    var f := FallbackPath;
    assert f[1..][1..][1..][1..][1..][1..] == [];
    assert Budget(f[1..][1..][1..][1..][1..]) == 5 && SleepBudget(f[1..][1..][1..][1..][1..]) == 750;
    assert Budget(f[1..][1..][1..][1..]) == 10 && SleepBudget(f[1..][1..][1..][1..]) == 1500;
    assert Budget(f[1..][1..][1..]) == 15 && SleepBudget(f[1..][1..][1..]) == 3250;
    assert Budget(f[1..][1..]) == 20 && SleepBudget(f[1..][1..]) == 7500;
    assert Budget(f[1..]) == 25 && SleepBudget(f[1..]) == 8250;
  }

}
