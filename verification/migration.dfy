/** The `augmented:mainnet` task of tasks/migrations/augmented-mainnet.ts: the
    controller that brings up the Augmented deployment on mainnet.

    Every awaited remote call is an opaque outcome, `Ok` or `Throws`. The
    controller is then a pure function from the command-line flags and those
    outcomes to a run trace. The trace holds the calls made, in order, the
    `renounce` and `success` flags at the finalize guard, and how the run
    ends. */
module AugmentedMainnet {
  import opened RegistryAudit

  /** Whether an awaited call completes or throws. */
  datatype Outcome = Ok | Throws

  /** The twelve deployment subtasks, in the order the controller runs them. */
  datatype Step =
    | DeployAddressProvider
    | DeployOracles
    | DeployLendingPool
    | DeployWethGateway
    | DeployAuxContracts
    | InitializeLendingPool
    | DeployStakeConfigurator
    | InitStakeTokens
    | DeployRewardContracts
    | InitRewardPools
    | AccessTest
    | SmokeTest

  const Steps: seq<Step> := [
    DeployAddressProvider, DeployOracles, DeployLendingPool, DeployWethGateway,
    DeployAuxContracts, InitializeLendingPool, DeployStakeConfigurator, InitStakeTokens,
    DeployRewardContracts, InitRewardPools, AccessTest, SmokeTest
  ]

  /** The command-line flags that steer the controller. */
  datatype Options = Options(incremental: bool, secure: bool, strict: bool, verify: bool)

  /** What the outside world does during one run. */
  datatype Env = Env(
    mainnetFork: bool,             // MAINNET_FORK=true in the environment
    cleanupUiConfig: Outcome,      // cleanupUiConfig()
    cleanupJsonDb: Outcome,        // cleanupJsonDb(network)
    throwing: set<Step>,           // the deployment subtasks whose DRE.run throws
    pluckTokens: Outcome,          // dev:pluck-tokens, run only on a mainnet fork
    audit: Figures,                // what printContracts reports
    finalize: Outcome,             // full:deploy-finalize
    writeUiConfig: Outcome,        // full:write-ui-config
    verifyAll: Outcome             // verify:verify-all-contracts
  )

  /** One call the controller makes. */
  datatype Event =
    | CleanUiConfig
    | CleanJsonDb
    | RunStep(step: Step)
    | PluckTokens
    | AuditRegistry(warnings: seq<Warning>)
    | Finalize(register: bool, outcome: Outcome)
    | WriteUiConfig
    | VerifyAllContracts

  /** How the run ends: `exit(1)`, a normal return, or a rejection from an
      error thrown after the finalize decision and caught by nobody. */
  datatype Termination = ExitFailure | Finished | Rejected

  /** The state when the try/catch of lines 32-126 is left. */
  datatype Attempt = Attempt(log: seq<Event>, renounce: bool, success: bool)

  /** A whole run. */
  datatype Trace = Trace(log: seq<Event>, renounce: bool, success: bool, termination: Termination)

  // ---------------------------------------------------------------------------
  // Where each call sits in the source

  function StepLine(s: Step): nat
  {
    match s
    case DeployAddressProvider => 53
    case DeployOracles => 56
    case DeployLendingPool => 59
    case DeployWethGateway => 62
    case DeployAuxContracts => 65
    case InitializeLendingPool => 68
    case DeployStakeConfigurator => 71
    case InitStakeTokens => 74
    case DeployRewardContracts => 77
    case InitRewardPools => 80
    case AccessTest => 83
    case SmokeTest => 86
  }

  /** The source line of the call an event records. */
  function SourceLine(e: Event): nat
  {
    match e
    case CleanUiConfig => 33
    case CleanJsonDb => 45
    case RunStep(s) => StepLine(s)
    case PluckTokens => 91
    case AuditRegistry(_) => 96
    case Finalize(_, _) => 131
    case WriteUiConfig => 162
    case VerifyAllContracts => 176
  }

  /** The calls occur in strictly increasing source-line order: the controller is
      straight-line code with no loop and no retry. */
  predicate Chronological(log: seq<Event>)
  {
    forall i, j :: 0 <= i < j < |log| ==> SourceLine(log[i]) < SourceLine(log[j])
  }

  predicate Finalized(log: seq<Event>)
  {
    exists e :: e in log && e.Finalize?
  }

  predicate Audited(log: seq<Event>)
  {
    exists e :: e in log && e.AuditRegistry?
  }

  // ---------------------------------------------------------------------------
  // The controller

  datatype StepRun = StepRun(attempted: seq<Step>, completed: bool)

  /** Awaits `steps` one after another. The first one that throws ends the
      sequence: the exception leaves the try block. */
  function RunSteps(steps: seq<Step>, throwing: set<Step>): (r: StepRun)
    ensures |r.attempted| <= |steps| && r.attempted == steps[..|r.attempted|]
    ensures forall i :: 0 <= i < |r.attempted| - 1 ==> r.attempted[i] !in throwing
    ensures r.completed ==> r.attempted == steps && forall s :: s in steps ==> s !in throwing
    ensures !r.completed ==> |r.attempted| > 0 && r.attempted[|r.attempted| - 1] in throwing
  {
    if |steps| == 0 then StepRun([], true)
    else if steps[0] in throwing then StepRun([steps[0]], false)
    else
      var rest := RunSteps(steps[1..], throwing);
      assert forall s :: s in steps <==> s == steps[0] || s in steps[1..];
      StepRun([steps[0]] + rest.attempted, rest.completed)
  }

  /** The log entries of the steps run. */
  function StepEvents(steps: seq<Step>): (r: seq<Event>)
    ensures |r| == |steps|
    ensures forall i :: 0 <= i < |steps| ==> r[i] == RunStep(steps[i])
  {
    seq(|steps|, i requires 0 <= i < |steps| => RunStep(steps[i]))
  }

  /** Every awaited call of the try block completes. */
  predicate NoFault(opts: Options, env: Env)
  {
    && env.cleanupUiConfig == Ok
    && (opts.incremental || env.cleanupJsonDb == Ok)
    && (forall s :: s in Steps ==> s !in env.throwing)
    && (env.mainnetFork ==> env.pluckTokens == Ok)
  }

  /** Lines 33-47: the UI config cleanup and, in a non-incremental run, the
      registry wipe. */
  function Prelude(opts: Options, env: Env): (log: seq<Event>)
    ensures log == [CleanUiConfig] || log == [CleanUiConfig, CleanJsonDb]
  {
    if env.cleanupUiConfig == Throws || opts.incremental then [CleanUiConfig]
    else [CleanUiConfig, CleanJsonDb]
  }

  predicate PreludeCompletes(opts: Options, env: Env)
  {
    env.cleanupUiConfig == Ok && (opts.incremental || env.cleanupJsonDb == Ok)
  }

  /** Lines 88-117, reached once every step completed: the token pluck on a
      mainnet fork, then the audit unless the pluck threw. */
  function Closing(opts: Options, env: Env): (log: seq<Event>)
    ensures PluckTokens in log <==> env.mainnetFork
    ensures |log| > 0 && log[|log| - 1].AuditRegistry? <==> !(env.mainnetFork && env.pluckTokens == Throws)
  {
    var pluck := if env.mainnetFork then [PluckTokens] else [];
    if env.mainnetFork && env.pluckTokens == Throws then pluck
    else pluck + [AuditRegistry(Warnings(env.audit))]
  }

  predicate ClosingCompletes(opts: Options, env: Env)
  {
    !(env.mainnetFork && env.pluckTokens == Throws) && !AuditThrows(opts.strict, env.audit)
  }

  /** The try/catch of lines 29-126. `renounce` and `success` start false; a
      non-incremental run wipes the registry and then sets `renounce` to
      `secure`; the steps run in order; the audit may throw under `strict`;
      reaching the end sets both flags. Any exception lands in the catch and
      leaves the flags as they were. */
  function Deploy(opts: Options, env: Env): (r: Attempt)
    ensures r.success ==> r.renounce
  {
    var prelude := Prelude(opts, env);
    if !PreludeCompletes(opts, env) then Attempt(prelude, false, false)
    else
      var renounce := !opts.incremental && opts.secure;
      var run := RunSteps(Steps, env.throwing);
      var log := prelude + StepEvents(run.attempted);
      if !run.completed then Attempt(log, renounce, false)
      else if !ClosingCompletes(opts, env) then Attempt(log + Closing(opts, env), renounce, false)
      else Attempt(log + Closing(opts, env), true, true)
  }

  /** Lines 127-136: finalize is called once, only when `renounce || success`,
      and its exception is caught. */
  function Finally(a: Attempt, env: Env): (log: seq<Event>)
    ensures |log| <= 1
  {
    if a.renounce || a.success then [Finalize(a.success, env.finalize)] else []
  }

  /** Lines 161-176: the work done after a successful run. */
  function AfterSuccess(opts: Options, env: Env): (log: seq<Event>)
    ensures |log| > 0 && log[0] == WriteUiConfig
  {
    if env.writeUiConfig == Ok && opts.verify then [WriteUiConfig, VerifyAllContracts] else [WriteUiConfig]
  }

  /** How a successful run ends: an exception from the UI config write or the
      verification rejects the run. */
  function SuccessEnding(opts: Options, env: Env): (e: Termination)
    ensures e != ExitFailure
  {
    if env.writeUiConfig == Throws || (opts.verify && env.verifyAll == Throws) then Rejected else Finished
  }

  /** Everything after the try block: the finalize guard of lines 128-136,
      the exit of lines 156-159, and the post-success work of lines 161-177. */
  function Conclude(opts: Options, env: Env, a: Attempt): (t: Trace)
    ensures t.termination == ExitFailure <==> !t.success
  {
    var log := a.log + Finally(a, env);
    if !a.success then Trace(log, a.renounce, false, ExitFailure)
    else Trace(log + AfterSuccess(opts, env), a.renounce, true, SuccessEnding(opts, env))
  }

  /** The whole controller, lines 20-177. */
  function Run(opts: Options, env: Env): (t: Trace)
    ensures t.success ==> t.renounce
    ensures t.termination == ExitFailure <==> !t.success
  {
    Conclude(opts, env, Deploy(opts, env))
  }

  // ---------------------------------------------------------------------------
  // The step table

  /** The steps are listed in the order of their source lines, so no step is
      listed twice. */
  lemma StepsInSourceOrder()
    ensures forall i, j :: 0 <= i < j < |Steps| ==> StepLine(Steps[i]) < StepLine(Steps[j])
  {
  }

  // ---------------------------------------------------------------------------
  // Properties of the try block

  /** The try block succeeds exactly when every call in it completes and the
      audit does not throw. When it fails, `renounce` holds exactly when the
      run is non-incremental and secure and the registry wipe completed. */
  lemma TryBlockFlags(opts: Options, env: Env)
    ensures Deploy(opts, env).success <==> NoFault(opts, env) && !AuditThrows(opts.strict, env.audit)
    ensures !Deploy(opts, env).success ==>
      (Deploy(opts, env).renounce <==>
        !opts.incremental && opts.secure && env.cleanupUiConfig == Ok && env.cleanupJsonDb == Ok)
  {
    var run := RunSteps(Steps, env.throwing);
    if !run.completed {
      var last := run.attempted[|run.attempted| - 1];
      assert last in Steps;
    }
  }

  /** Two chronological logs separated by a source line form a chronological
      log. */
  lemma ChronologicalAppend(a: seq<Event>, b: seq<Event>, mid: nat)
    requires Chronological(a) && Chronological(b)
    requires forall e :: e in a ==> SourceLine(e) < mid
    requires forall e :: e in b ==> mid <= SourceLine(e)
    ensures Chronological(a + b)
  {
    var ab := a + b;
    forall i, j | 0 <= i < j < |ab|
      ensures SourceLine(ab[i]) < SourceLine(ab[j])
    {
      if j < |a| {
        assert ab[i] == a[i] && ab[j] == a[j];
      } else if i >= |a| {
        assert ab[i] == b[i - |a|] && ab[j] == b[j - |a|];
      } else {
        assert ab[i] == a[i] && a[i] in a;
        assert ab[j] == b[j - |a|] && b[j - |a|] in b;
      }
    }
  }

  /** Proof helper: Deploy's log written as one expression, so that lemmas
      about its contents need not unfold Deploy branch by branch. */
  lemma DeployLog(opts: Options, env: Env)
    ensures var run := RunSteps(Steps, env.throwing);
      Deploy(opts, env).log == Prelude(opts, env) +
        if !PreludeCompletes(opts, env) then []
        else StepEvents(run.attempted) + if run.completed then Closing(opts, env) else []
  {
  }

  lemma ClosingContents(opts: Options, env: Env)
    ensures forall e :: e in Closing(opts, env) ==> e == PluckTokens || e.AuditRegistry?
  {
  }

  lemma PreludeChronological(opts: Options, env: Env)
    ensures Chronological(Prelude(opts, env))
    ensures forall e :: e in Prelude(opts, env) ==> SourceLine(e) <= 45
  {
  }

  lemma ClosingChronological(opts: Options, env: Env)
    ensures Chronological(Closing(opts, env))
    ensures forall e :: e in Closing(opts, env) ==> 91 <= SourceLine(e) <= 96
  {
  }

  /** The events of the first k steps are in source order, between lines 53
      and 86. */
  lemma StepEventsChronological(k: nat)
    requires k <= |Steps|
    ensures Chronological(StepEvents(Steps[..k]))
    ensures forall e :: e in StepEvents(Steps[..k]) ==> 53 <= SourceLine(e) <= 86
  {
    StepsInSourceOrder();
    var evs := StepEvents(Steps[..k]);
    forall e | e in evs
      ensures 53 <= SourceLine(e) <= 86
    {
      var i :| 0 <= i < |evs| && evs[i] == e;
      assert e == RunStep(Steps[i]);
    }
  }

  /** The try block's calls happen in source order, all before the catch at
      line 121. */
  lemma TryBlockChronological(opts: Options, env: Env)
    ensures Chronological(Deploy(opts, env).log)
    ensures forall e :: e in Deploy(opts, env).log ==> SourceLine(e) < 121
  {
    var prelude := Prelude(opts, env);
    if PreludeCompletes(opts, env) {
      var run := RunSteps(Steps, env.throwing);
      var steps := StepEvents(run.attempted);
      PreludeChronological(opts, env);
      StepEventsChronological(|run.attempted|);
      ChronologicalAppend(prelude, steps, 53);
      if run.completed {
        ClosingChronological(opts, env);
        ChronologicalAppend(prelude + steps, Closing(opts, env), 91);
      }
    }
  }

  /** The step events name exactly the steps given, and nothing else. */
  lemma StepEventsContents(steps: seq<Step>, e: Event)
    ensures e in StepEvents(steps) <==> e.RunStep? && e.step in steps
  {
    var evs := StepEvents(steps);
    if e in evs {
      var i :| 0 <= i < |evs| && evs[i] == e;
    }
    if e.RunStep? && e.step in steps {
      var i :| 0 <= i < |steps| && steps[i] == e.step;
      assert evs[i] == e;
    }
  }

  /** The registry is wiped exactly when the run is non-incremental and the UI
      config cleanup before it completed. */
  lemma TryBlockWipe(opts: Options, env: Env)
    ensures CleanJsonDb in Deploy(opts, env).log <==> !opts.incremental && env.cleanupUiConfig == Ok
  {
    var prelude := Prelude(opts, env);
    if PreludeCompletes(opts, env) {
      var run := RunSteps(Steps, env.throwing);
      var steps := StepEvents(run.attempted);
      StepEventsContents(run.attempted, CleanJsonDb);
    }
  }

  /** Once the prelude completes, the steps run are exactly those RunSteps
      attempts; otherwise no step runs. */
  lemma TryBlockSteps(opts: Options, env: Env, s: Step)
    ensures RunStep(s) in Deploy(opts, env).log <==>
      PreludeCompletes(opts, env) && s in RunSteps(Steps, env.throwing).attempted
  {
    var run := RunSteps(Steps, env.throwing);
    DeployLog(opts, env);
    StepEventsContents(run.attempted, RunStep(s));
    ClosingContents(opts, env);
  }

  /** The audit runs exactly when every earlier call of the try block
      completed. */
  lemma TryBlockAudit(opts: Options, env: Env)
    ensures Audited(Deploy(opts, env).log) <==> NoFault(opts, env)
  {
    var a := Deploy(opts, env);
    var prelude := Prelude(opts, env);
    if PreludeCompletes(opts, env) {
      var run := RunSteps(Steps, env.throwing);
      var steps := StepEvents(run.attempted);
      forall e | e in steps
        ensures !e.AuditRegistry?
      {
        StepEventsContents(run.attempted, e);
      }
      if !run.completed {
        var last := run.attempted[|run.attempted| - 1];
        assert last in Steps;
      } else if !(env.mainnetFork && env.pluckTokens == Throws) {
        assert AuditRegistry(Warnings(env.audit)) in a.log;
      } else {
        assert a.log == prelude + steps + [PluckTokens];
      }
    }
  }

  // ---------------------------------------------------------------------------
  // Properties of a whole run

  /** What the try block guarantees about the state it leaves. */
  predicate TryBlockShaped(a: Attempt)
  {
    && Chronological(a.log)
    && (forall e :: e in a.log ==> SourceLine(e) < 121)
    && (a.success ==> a.renounce)
  }

  lemma DeployShaped(opts: Options, env: Env)
    ensures TryBlockShaped(Deploy(opts, env))
  {
    TryBlockChronological(opts, env);
  }

  /** After the try block, the log grows only by events from line 131 on;
      the flags are kept. */
  lemma ConcludeExtends(opts: Options, env: Env, a: Attempt, e: Event)
    requires TryBlockShaped(a)
    ensures Conclude(opts, env, a).success == a.success && Conclude(opts, env, a).renounce == a.renounce
    ensures |Conclude(opts, env, a).log| >= |a.log| && Conclude(opts, env, a).log[..|a.log|] == a.log
    ensures SourceLine(e) < 121 ==> (e in Conclude(opts, env, a).log <==> e in a.log)
  {
    var t := Conclude(opts, env, a);
    assert t.log[..|a.log|] == a.log;
  }

  lemma ConcludeChronological(opts: Options, env: Env, a: Attempt)
    requires TryBlockShaped(a)
    ensures Chronological(Conclude(opts, env, a).log)
  {
    var rest := Finally(a, env) + (if a.success then AfterSuccess(opts, env) else []);
    assert Conclude(opts, env, a).log == a.log + rest;
    ChronologicalAppend(a.log, rest, 121);
  }

  /** The finalize guard: finalize is called exactly when `renounce ||
      success`, once, with `register` equal to `success`. */
  lemma ConcludeFinalize(opts: Options, env: Env, a: Attempt)
    requires TryBlockShaped(a)
    ensures Finalized(Conclude(opts, env, a).log) <==> a.renounce || a.success
    ensures forall e :: e in Conclude(opts, env, a).log && e.Finalize? ==> e == Finalize(a.success, env.finalize)
  {
    var t := Conclude(opts, env, a);
    forall e | e in t.log && e.Finalize?
      ensures e == Finalize(a.success, env.finalize)
    {
      ConcludeExtends(opts, env, a, e);
    }
    if a.renounce || a.success {
      assert Finalize(a.success, env.finalize) in t.log;
    }
  }

  /** The post-success work: the UI config is written exactly after a
      successful try block, right after finalize; verification follows when
      requested and the write completed. */
  lemma ConcludePostSuccess(opts: Options, env: Env, a: Attempt)
    requires TryBlockShaped(a)
    ensures WriteUiConfig in Conclude(opts, env, a).log <==> a.success
    ensures VerifyAllContracts in Conclude(opts, env, a).log <==>
      a.success && opts.verify && env.writeUiConfig == Ok
    ensures forall j :: 0 <= j < |Conclude(opts, env, a).log| && Conclude(opts, env, a).log[j] == WriteUiConfig ==>
      j > 0 && Conclude(opts, env, a).log[j - 1] == Finalize(true, env.finalize)
    ensures Conclude(opts, env, a).termination == Rejected <==>
      a.success && (env.writeUiConfig == Throws || (opts.verify && env.verifyAll == Throws))
  {
    var t := Conclude(opts, env, a);
    ConcludeExtends(opts, env, a, WriteUiConfig);
    ConcludeExtends(opts, env, a, VerifyAllContracts);
    assert WriteUiConfig !in a.log && VerifyAllContracts !in a.log;
    if a.success {
      ConcludeChronological(opts, env, a);
      assert t.log[|a.log| + 1] == WriteUiConfig;
      forall j | 0 <= j < |t.log| && t.log[j] == WriteUiConfig
        ensures j == |a.log| + 1
      {
      }
    }
  }

  /** Every call of a run happens in source order: the steps in their listed
      order, the registry wipe before any step, finalize after the try block
      and before any post-success work. */
  lemma RunChronological(opts: Options, env: Env)
    ensures Chronological(Run(opts, env).log)
  {
    DeployShaped(opts, env);
    ConcludeChronological(opts, env, Deploy(opts, env));
  }

  /** Finalize is called at most once: it is never retried. */
  lemma FinalizeAtMostOnce(opts: Options, env: Env, i: nat, j: nat)
    requires i < |Run(opts, env).log| && j < |Run(opts, env).log|
    requires Run(opts, env).log[i].Finalize? && Run(opts, env).log[j].Finalize?
    ensures i == j
  {
    var log := Run(opts, env).log;
    RunChronological(opts, env);
    assert SourceLine(log[i]) == SourceLine(log[j]) == 131;
  }

  /** The finalize guard of line 128: finalize is called exactly when
      `renounce || success`, with `register` equal to `success`. */
  lemma FinalizeGuard(opts: Options, env: Env)
    ensures Finalized(Run(opts, env).log) <==> Run(opts, env).renounce || Run(opts, env).success
    ensures forall e :: e in Run(opts, env).log && e.Finalize? ==>
      e == Finalize(Run(opts, env).success, env.finalize)
  {
    DeployShaped(opts, env);
    ConcludeExtends(opts, env, Deploy(opts, env), CleanUiConfig);
    ConcludeFinalize(opts, env, Deploy(opts, env));
  }

  /** A run succeeds exactly when every call of the try block completes and
      the strict audit does not throw; with `strict` set, an audit finding
      always fails the run. */
  lemma SuccessCondition(opts: Options, env: Env)
    ensures Run(opts, env).success <==> NoFault(opts, env) && !AuditThrows(opts.strict, env.audit)
    ensures opts.strict && HasWarn(env.audit) ==> !Run(opts, env).success
  {
    DeployShaped(opts, env);
    ConcludeExtends(opts, env, Deploy(opts, env), CleanUiConfig);
    TryBlockFlags(opts, env);
  }

  /** A failed run finalizes exactly when it is non-incremental, secure and the
      registry wipe completed; a failed incremental run never finalizes. */
  lemma FailedRunFinalization(opts: Options, env: Env)
    requires !Run(opts, env).success
    ensures Finalized(Run(opts, env).log) <==>
      !opts.incremental && opts.secure && env.cleanupUiConfig == Ok && env.cleanupJsonDb == Ok
    ensures opts.incremental ==> !Finalized(Run(opts, env).log)
  {
    DeployShaped(opts, env);
    ConcludeExtends(opts, env, Deploy(opts, env), CleanUiConfig);
    TryBlockFlags(opts, env);
    FinalizeGuard(opts, env);
  }

  /** Without `strict`, the audit figures change nothing but the warnings
      logged: the flags and the ending are the same for any figures. */
  lemma NonStrictAuditIgnored(opts: Options, env: Env, other: Figures)
    requires !opts.strict
    ensures Run(opts, env.(audit := other)).success == Run(opts, env).success
    ensures Run(opts, env.(audit := other)).renounce == Run(opts, env).renounce
    ensures Run(opts, env.(audit := other)).termination == Run(opts, env).termination
  {
    var env' := env.(audit := other);
    DeployShaped(opts, env);
    DeployShaped(opts, env');
    ConcludeExtends(opts, env, Deploy(opts, env), CleanUiConfig);
    ConcludeExtends(opts, env', Deploy(opts, env'), CleanUiConfig);
    TryBlockFlags(opts, env);
    TryBlockFlags(opts, env');
  }

  /** An exception from finalize is caught: it changes neither the flags nor
      how the run ends. */
  lemma FinalizeErrorIgnored(opts: Options, env: Env, o: Outcome)
    ensures Run(opts, env.(finalize := o)).success == Run(opts, env).success
    ensures Run(opts, env.(finalize := o)).renounce == Run(opts, env).renounce
    ensures Run(opts, env.(finalize := o)).termination == Run(opts, env).termination
  {
    assert Deploy(opts, env.(finalize := o)) == Deploy(opts, env);
  }

  /** RunSteps attempts a prefix of the listed steps, every one but the last
      of which completed. */
  lemma AttemptedInOrder(throwing: set<Step>, i: nat, j: nat)
    requires i < j < |Steps|
    requires Steps[j] in RunSteps(Steps, throwing).attempted
    ensures Steps[i] in RunSteps(Steps, throwing).attempted
    ensures Steps[i] !in throwing
  {
    var run := RunSteps(Steps, throwing);
    var k :| 0 <= k < |run.attempted| && run.attempted[k] == Steps[j];
    StepsInSourceOrder();
    assert k == j;
    assert run.attempted[i] == Steps[i];
  }

  /** Steps run in their listed order: a step runs only after every earlier
      step ran and completed. */
  lemma StepsRunInOrder(opts: Options, env: Env, i: nat, j: nat)
    requires i < j < |Steps|
    requires RunStep(Steps[j]) in Run(opts, env).log
    ensures RunStep(Steps[i]) in Run(opts, env).log
    ensures Steps[i] !in env.throwing
  {
    DeployShaped(opts, env);
    ConcludeExtends(opts, env, Deploy(opts, env), RunStep(Steps[j]));
    ConcludeExtends(opts, env, Deploy(opts, env), RunStep(Steps[i]));
    TryBlockSteps(opts, env, Steps[j]);
    TryBlockSteps(opts, env, Steps[i]);
    AttemptedInOrder(env.throwing, i, j);
  }

  /** A step that throws is the last one run: no later step runs, the audit
      is skipped, and the run fails. */
  lemma ThrowingStepEndsTryBlock(opts: Options, env: Env, k: nat)
    requires k < |Steps| && Steps[k] in env.throwing
    ensures forall j :: k < j < |Steps| ==> RunStep(Steps[j]) !in Run(opts, env).log
    ensures !Audited(Run(opts, env).log)
    ensures !Run(opts, env).success
  {
    forall j | k < j < |Steps|
      ensures RunStep(Steps[j]) !in Run(opts, env).log
    {
      if RunStep(Steps[j]) in Run(opts, env).log {
        StepsRunInOrder(opts, env, k, j);
      }
    }
    assert Steps[k] in Steps;
    TryBlockAudit(opts, env);
    SuccessCondition(opts, env);
    DeployShaped(opts, env);
    forall e | e in Run(opts, env).log && e.AuditRegistry?
      ensures false
    {
      ConcludeExtends(opts, env, Deploy(opts, env), e);
    }
  }

  /** The registry is wiped exactly in a non-incremental run whose UI config
      cleanup completed. */
  lemma RegistryWipe(opts: Options, env: Env)
    ensures CleanJsonDb in Run(opts, env).log <==> !opts.incremental && env.cleanupUiConfig == Ok
  {
    TryBlockWipe(opts, env);
    DeployShaped(opts, env);
    ConcludeExtends(opts, env, Deploy(opts, env), CleanJsonDb);
  }

  /** A step runs only after the UI config cleanup completed and, in a
      non-incremental run, after the registry wipe completed. */
  lemma StepsFollowPrelude(opts: Options, env: Env, s: Step)
    requires RunStep(s) in Run(opts, env).log
    ensures env.cleanupUiConfig == Ok
    ensures !opts.incremental ==> CleanJsonDb in Run(opts, env).log && env.cleanupJsonDb == Ok
  {
    DeployShaped(opts, env);
    ConcludeExtends(opts, env, Deploy(opts, env), RunStep(s));
    TryBlockSteps(opts, env, s);
    RegistryWipe(opts, env);
  }

  /** The UI config is written exactly when the run succeeded, right after the
      finalize call; verification follows only when requested and the write
      completed; the run is rejected exactly when one of those two throws. */
  lemma PostSuccessWork(opts: Options, env: Env)
    ensures WriteUiConfig in Run(opts, env).log <==> Run(opts, env).success
    ensures VerifyAllContracts in Run(opts, env).log <==>
      Run(opts, env).success && opts.verify && env.writeUiConfig == Ok
    ensures forall j :: 0 <= j < |Run(opts, env).log| && Run(opts, env).log[j] == WriteUiConfig ==>
      j > 0 && Run(opts, env).log[j - 1] == Finalize(true, env.finalize)
    ensures Run(opts, env).termination == Rejected <==>
      Run(opts, env).success && (env.writeUiConfig == Throws || (opts.verify && env.verifyAll == Throws))
  {
    DeployShaped(opts, env);
    ConcludeExtends(opts, env, Deploy(opts, env), CleanUiConfig);
    ConcludePostSuccess(opts, env, Deploy(opts, env));
  }
}
