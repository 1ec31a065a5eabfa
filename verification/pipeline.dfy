/** `mainAction` (app/phalcon/modules/cli/tasks/BuildTask.php:24-50) and the
    stages that have no module of their own: `makeEntryPoints`,
    `copyFiles`, `installPackages` and `buildWebpack`.

    The build runs its stages one after the other. A stage that throws ends
    the build with an uncaught exception, `compileLocales` may end it with
    `exit(1)`, and the build ends with `exit(0)` only after every stage has
    returned normally. The only state carried from stage to stage, besides
    the files written, is the configured template cache directory. */
module BuildPipeline {
  import opened Outcomes
  import opened PhpArray
  import opened Effects
  import opened DistPaths
  import opened VoltWalk
  import opened VoltTemplates
  import opened ConfigMerge
  import opened PhpEncoder
  import opened Locales

  const WebpackError := "Webpack build error."

  /** Everything the build reads: the configured paths, the parsed
      configuration documents, and how each outside call would turn out. */
  datatype Env = Env(
    projectDir: string, distDir: string, appDir: string, etcDir: string, devDir: string, phalconDir: string,
    distExists: bool, rmExit: int,
    views: Views, compiles: string -> bool, errorOf: string -> string,
    phpEncode: Option<Scalar>, encoders: map<string, string>, ionExit: int,
    conf: ConfInputs,
    cwd: string, chdirOk: bool, installExit: Installer -> int,
    compileLocale: Key -> LocaleOutcome,
    webpackExit: int)

  datatype Stage = Clean | Skeleton | Templates | PhalconCode | EntryPoints | Copy | Config | Packages | LocaleCache | Bundle

  /** The stages in the order `mainAction` calls them. */
  const AllStages: seq<Stage> := [Clean, Skeleton, Templates, PhalconCode, EntryPoints, Copy, Config, Packages, LocaleCache, Bundle]

  /** One stage's effects, how it ended, and the template cache directory
      afterwards. */
  datatype Step = Step(actions: seq<Action>, outcome: Outcome, voltCacheDir: string)

  /** How the PHP process ends: through `exit`, or with an exception nobody
      catches. */
  datatype Termination = ExitCode(code: int) | Uncaught(message: string)

  // ---------------------------------------------------------------------
  // The plumbing stages

  /** `makeEntryPoints`: the CLI script (made executable) and the web front
      controller, written inside the dist directory. */
  function MakeEntryPoints(distDir: string): (r: StageResult)
    ensures r.outcome == Completed
    ensures WriteScript(distDir + "/webird.php") in r.actions
    ensures WriteScript(distDir + "/public/index.php") in r.actions
    ensures MakeExecutable(distDir + "/webird.php") in r.actions
    ensures forall a :: a in r.actions && a.WriteScript? ==> |a.path| >= |distDir| && a.path[..|distDir|] == distDir
    ensures forall i :: 0 <= i < |r.actions| && r.actions[i].MakeExecutable?
              ==> exists j :: 0 <= j < i && r.actions[j] == WriteScript(r.actions[i].path)
  {
    var r := StageResult([WriteScript(distDir + "/webird.php"),
                          MakeExecutable(distDir + "/webird.php"),
                          WriteScript(distDir + "/public/index.php")],
                         Completed);
    assert r.actions[0] == WriteScript(r.actions[1].path);
    r
  }

  /** `copyFiles`: package manifests, theme assets and the database schema
      copied into the dist directory. `copy` and `cp` failures are not
      checked. */
  function CopyFiles(appDir: string, etcDir: string, devDir: string, distDir: string): (r: StageResult)
    ensures r.outcome == Completed
    ensures forall a :: a in r.actions && a.CopyFile? ==> |a.dst| >= |distDir| && a.dst[..|distDir|] == distDir
    ensures forall a :: a in r.actions && a.CopyTree? ==> |a.dst| >= |distDir| && a.dst[..|distDir|] == distDir
  {
    StageResult([CopyFile(devDir + "/composer.json", distDir + "/composer.json"),
                 CopyFile(devDir + "/composer.lock", distDir + "/composer.lock"),
                 CopyFile(devDir + "/package.json", distDir + "/package.json"),
                 CopyFile(devDir + "/bower.json", distDir + "/bower.json"),
                 CopyTree(appDir + "/theme/assets", distDir + "/public/assets"),
                 CopyFile(etcDir + "/schema.sql", distDir + "/etc/schema.sql"),
                 MakeExecutable(distDir + "/webird.php")],
                Completed)
  }

  /** `installPackages`: composer, npm and bower run in the dist directory,
      or in the earlier working directory when `chdir` fails; their exit codes (`installExit`) are collected but never checked.
      `cwd` is the working directory on entry and `chdirOk` whether
      `chdir` into the dist directory succeeded. A failing `chdir` only
      warns, so the installers then run in `cwd`. */
  function InstallPackages(distDir: string, cwd: string, chdirOk: bool, installExit: Installer -> int): (r: StageResult)
    ensures r.outcome == Completed
    ensures forall a :: a in r.actions ==> a.RunInstaller?
    ensures chdirOk ==> forall a :: a in r.actions ==> a.RunInstaller? && a.dir == distDir
    ensures !chdirOk ==> forall a :: a in r.actions ==> a.RunInstaller? && a.dir == cwd
    ensures chdirOk ==> forall t: Installer :: RunInstaller(t, distDir) in r.actions
    ensures !chdirOk ==> forall t: Installer :: RunInstaller(t, cwd) in r.actions
    ensures var d := if chdirOk then distDir else cwd;
            r.actions == [RunInstaller(Composer, d), RunInstaller(Npm, d), RunInstaller(Bower, d)]
  {
    var dir := if chdirOk then distDir else cwd;
    var r := StageResult([RunInstaller(Composer, dir), RunInstaller(Npm, dir), RunInstaller(Bower, dir)],
                         Completed);
    assert forall t: Installer :: RunInstaller(t, dir) == r.actions[match t case Composer => 0 case Npm => 1 case Bower => 2];
    r
  }

  /** `buildWebpack`: run the bundler in the development directory; a
      non-zero exit code throws. */
  function BuildWebpack(devDir: string, exitCode: int): (r: StageResult)
    ensures r.actions == [BuildBundle(devDir)]
    ensures r.outcome == Completed <==> exitCode == 0
    ensures r.outcome != Completed ==> r.outcome == Threw(WebpackError)
  {
    StageResult([BuildBundle(devDir)], if exitCode != 0 then Threw(WebpackError) else Completed)
  }

  // ---------------------------------------------------------------------
  // Running the stages

  function Lift(r: StageResult, voltCacheDir: string): Step
  {
    Step(r.actions, r.outcome, voltCacheDir)
  }

  /** One stage, with the template cache directory as configured when it
      starts. Only the template stage changes that directory. */
  function RunStage(env: Env, voltCacheDir: string, s: Stage): (r: Step)
    ensures s != Templates ==> r.voltCacheDir == voltCacheDir
    ensures r.outcome == Completed || r.outcome == Exited(1) || r.outcome.Threw?
    ensures r.outcome == Exited(1) ==> s == LocaleCache
  {
    match s
    case Clean => Lift(CleanDirectoryStructure(env.projectDir, env.distDir, env.distExists, env.rmExit), voltCacheDir)
    case Skeleton => Lift(BuildDirectoryStructure(env.distDir), voltCacheDir)
    case Templates =>
      var t := CompileVoltTemplates(env.views, env.distDir, voltCacheDir, env.compiles, env.errorOf);
      Step(t.actions, t.outcome, t.voltCacheDir)
    case PhalconCode => Lift(BuildPhalconDir(env.phpEncode, env.encoders, env.phalconDir, env.distDir, env.ionExit), voltCacheDir)
    case EntryPoints => Lift(MakeEntryPoints(env.distDir), voltCacheDir)
    case Copy => Lift(CopyFiles(env.appDir, env.etcDir, env.devDir, env.distDir), voltCacheDir)
    case Config => Lift(BuildConf(env.distDir, env.conf), voltCacheDir)
    case Packages => Lift(InstallPackages(env.distDir, env.cwd, env.chdirOk, env.installExit), voltCacheDir)
    case LocaleCache => Lift(CompileLocales(env.conf.supported, env.distDir, env.compileLocale), voltCacheDir)
    case Bundle => Lift(BuildWebpack(env.devDir, env.webpackExit), voltCacheDir)
  }

  /** The stages run so far: their effects, how the last one ended, the
      cache directory, and which stages were entered. */
  datatype Run = Run(actions: seq<Action>, outcome: Outcome, voltCacheDir: string, entered: seq<Stage>)

  /** Run `stages` in order, stopping at the first that does not return
      normally. */
  function RunStages(env: Env, voltCacheDir: string, stages: seq<Stage>): (r: Run)
    ensures r.entered <= stages
    ensures r.outcome != Completed ==> |r.entered| > 0
    ensures r.outcome == Completed ==> r.entered == stages
    decreases stages
  {
    if stages == [] then Run([], Completed, voltCacheDir, [])
    else
      var step := RunStage(env, voltCacheDir, stages[0]);
      if step.outcome != Completed then Run(step.actions, step.outcome, step.voltCacheDir, [stages[0]])
      else
        var rest := RunStages(env, step.voltCacheDir, stages[1..]);
        Run(step.actions + rest.actions, rest.outcome, rest.voltCacheDir, [stages[0]] + rest.entered)
  }

  /** What the build did and how the process ended. */
  datatype BuildResult = BuildResult(actions: seq<Action>, termination: Termination, voltCacheDir: string, entered: seq<Stage>)

  /** `mainAction`: all stages, then `exit(0)`. */
  function MainAction(env: Env, voltCacheDir: string): (r: BuildResult)
    ensures r.entered <= AllStages && |r.entered| > 0
    ensures r.termination == ExitCode(0) ==> r.entered == AllStages
    ensures r.termination.ExitCode? ==> r.termination.code == 0 || r.termination.code == 1
  {
    var run := RunStages(env, voltCacheDir, AllStages);
    var termination := match run.outcome
      case Completed => ExitCode(0)
      case Exited(c) => ExitCode(c)
      case Threw(m) => Uncaught(m);
    ExitsAreZeroOrOne(env, voltCacheDir, AllStages);
    BuildResult(run.actions, termination, run.voltCacheDir, run.entered)
  }

  // ---------------------------------------------------------------------
  // Stage by stage

  /** Whether a stage returns normally does not depend on the cache
      directory it starts with. */
  predicate StageCompletes(env: Env, s: Stage)
  {
    RunStage(env, "", s).outcome == Completed
  }

  lemma StageOutcomeIgnoresCacheDir(env: Env, v1: string, v2: string, s: Stage)
    ensures RunStage(env, v1, s).outcome == RunStage(env, v2, s).outcome
  {
  }

  /** Nor do its effects: the template stage compiles into the dist cache
      whatever the configured directory was. */
  lemma StageActionsIgnoreCacheDir(env: Env, v1: string, v2: string, s: Stage)
    ensures RunStage(env, v1, s).actions == RunStage(env, v2, s).actions
  {
  }

  /** The effects of one stage. */
  function StageActions(env: Env, s: Stage): seq<Action>
  {
    RunStage(env, "", s).actions
  }

  /** The effects of one stage, as a function of the stage. */
  function StageEffects(env: Env): Stage -> seq<Action>
  {
    s => StageActions(env, s)
  }

  /** The effects of `stages` when each stage `s` has the effects
      `effects(s)`, each stage's effects after those of the stage before it. */
  function Concat(effects: Stage -> seq<Action>, stages: seq<Stage>): seq<Action>
    decreases stages
  {
    if stages == [] then [] else effects(stages[0]) + Concat(effects, stages[1..])
  }

  /** The effects of `stages` in the build's environment. */
  function StageTrace(env: Env, stages: seq<Stage>): seq<Action>
  {
    Concat(StageEffects(env), stages)
  }

  lemma {:induction false} ConcatAppend(effects: Stage -> seq<Action>, a: seq<Stage>, b: seq<Stage>)
    ensures Concat(effects, a + b) == Concat(effects, a) + Concat(effects, b)
    decreases a
  {
    if a == [] {
      assert a + b == b;
    } else {
      assert (a + b)[1..] == a[1..] + b;
      ConcatAppend(effects, a[1..], b);
    }
  }

  lemma ConcatCons(effects: Stage -> seq<Action>, s: Stage, rest: seq<Stage>)
    ensures Concat(effects, [s] + rest) == effects(s) + Concat(effects, rest)
  {
    assert ([s] + rest)[1..] == rest;
  }

  lemma StageTraceAppend(env: Env, a: seq<Stage>, b: seq<Stage>)
    ensures StageTrace(env, a + b) == StageTrace(env, a) + StageTrace(env, b)
  {
    ConcatAppend(StageEffects(env), a, b);
  }

  /** A run records the effects of the stages it entered, one stage after
      the other, in the order it entered them. */
  lemma {:induction false} RunActionsFollowEntered(env: Env, voltCacheDir: string, stages: seq<Stage>)
    ensures var r := RunStages(env, voltCacheDir, stages);
            r.actions == StageTrace(env, r.entered)
    decreases stages
  {
    if stages != [] {
      var step := RunStage(env, voltCacheDir, stages[0]);
      StageActionsIgnoreCacheDir(env, voltCacheDir, "", stages[0]);
      if step.outcome != Completed {
        assert [stages[0]] == [stages[0]] + [];
        StageTraceCons(env, stages[0], []);
      } else {
        var rest := RunStages(env, step.voltCacheDir, stages[1..]);
        RunActionsFollowEntered(env, step.voltCacheDir, stages[1..]);
        StageTraceCons(env, stages[0], rest.entered);
      }
    }
  }

  /** A stage's only way to exit is `compileLocales`, with code 1. */
  lemma {:induction false} ExitsAreZeroOrOne(env: Env, voltCacheDir: string, stages: seq<Stage>)
    ensures var r := RunStages(env, voltCacheDir, stages);
            r.outcome == Completed || r.outcome == Exited(1) || r.outcome.Threw?
    decreases stages
  {
    if stages != [] {
      var step := RunStage(env, voltCacheDir, stages[0]);
      if step.outcome == Completed {
        ExitsAreZeroOrOne(env, step.voltCacheDir, stages[1..]);
      }
    }
  }

  /** Every stage but the last one entered returned normally, and the last
      one entered ended the way the run did. */
  lemma {:induction false} EnteredStagesCompleted(env: Env, voltCacheDir: string, stages: seq<Stage>)
    ensures var r := RunStages(env, voltCacheDir, stages);
            && (forall i :: 0 <= i < |r.entered| - 1 ==> StageCompletes(env, r.entered[i]))
            && (r.outcome != Completed ==> r.outcome == RunStage(env, "", r.entered[|r.entered| - 1]).outcome)
            && (r.outcome == Completed <==> forall i :: 0 <= i < |stages| ==> StageCompletes(env, stages[i]))
    decreases stages
  {
    if stages != [] {
      var step := RunStage(env, voltCacheDir, stages[0]);
      StageOutcomeIgnoresCacheDir(env, voltCacheDir, "", stages[0]);
      if step.outcome == Completed {
        var rest := RunStages(env, step.voltCacheDir, stages[1..]);
        EnteredStagesCompleted(env, step.voltCacheDir, stages[1..]);
        var r := RunStages(env, voltCacheDir, stages);
        assert r.entered == [stages[0]] + rest.entered;
        forall i | 0 <= i < |r.entered| - 1
          ensures StageCompletes(env, r.entered[i])
        {
          if i > 0 {
            assert r.entered[i] == rest.entered[i - 1];
          }
        }
        if forall i :: 0 <= i < |stages| ==> StageCompletes(env, stages[i]) {
          assert forall i :: 0 <= i < |stages[1..]| ==> StageCompletes(env, stages[1..][i]) by {
            forall i | 0 <= i < |stages[1..]|
              ensures StageCompletes(env, stages[1..][i])
            {
              assert stages[1..][i] == stages[i + 1];
            }
          }
        } else {
          var i :| 0 <= i < |stages| && !StageCompletes(env, stages[i]);
          assert stages[1..][i - 1] == stages[i];
        }
      }
    }
  }

  /** When each stage returns normally, in terms of the inputs. */
  lemma StageCompletesIff(env: Env, s: Stage)
    ensures StageCompletes(env, s) <==> match s
      case Clean => env.distDir == ExpectedDistDir(env.projectDir) && (!env.distExists || env.rmExit == 0)
      case Templates =>
        && (forall p :: p in TemplateFiles(env.views.simpleDir, env.views.simple) ==> env.compiles(p))
        && (forall p :: p in TemplateFiles(PartialsDir(env.views), env.views.partials) ==> env.compiles(p))
      case PhalconCode =>
        && env.phpEncode.Some? && env.phpEncode.value != Null
        && (PhpEmpty(env.phpEncode.value) || StrVal(env.phpEncode.value) in env.encoders)
      case LocaleCache =>
        forall j :: 0 <= j < |KeysOf(env.conf.supported)| ==> env.compileLocale(KeysOf(env.conf.supported)[j]) == Compiled
      case Bundle => env.webpackExit == 0
      case _ => true
  {
    match s
    case Templates => TemplatesCompleteIff(env.views, env.distDir, "", env.compiles, env.errorOf);
    case LocaleCache => LocalesOutcomeIff(env.conf.supported, env.distDir, env.compileLocale);
    case _ =>
  }

  // ---------------------------------------------------------------------
  // The whole build

  /** The build exits with code 0 exactly when every stage returns
      normally, and then it has entered every stage in order. */
  lemma BuildSucceedsIff(env: Env, voltCacheDir: string)
    ensures var r := MainAction(env, voltCacheDir);
            r.termination == ExitCode(0) <==> forall i :: 0 <= i < |AllStages| ==> StageCompletes(env, AllStages[i])
  {
    EnteredStagesCompleted(env, voltCacheDir, AllStages);
  }

  /** The stages entered are a prefix of the fixed order, their effects
      are recorded one stage after the other in that order, every one but
      the last returned normally, and the last decides how the build ends. */
  lemma StagesRunInOrder(env: Env, voltCacheDir: string)
    ensures var r := MainAction(env, voltCacheDir);
            && r.entered == AllStages[..|r.entered|]
            && r.actions == StageTrace(env, r.entered)
            && (forall i :: 0 <= i < |r.entered| - 1 ==> StageCompletes(env, r.entered[i]))
            && (r.termination != ExitCode(0) ==> !StageCompletes(env, r.entered[|r.entered| - 1]))
  {
    MainActionPrefix(env, voltCacheDir);
    MainActionTrace(env, voltCacheDir);
    MainActionCompleted(env, voltCacheDir);
  }

  lemma MainActionPrefix(env: Env, voltCacheDir: string)
    ensures var r := MainAction(env, voltCacheDir);
            r.entered == AllStages[..|r.entered|]
  {
    var r := MainAction(env, voltCacheDir);
    assert r.entered <= AllStages;
  }

  lemma MainActionCompleted(env: Env, voltCacheDir: string)
    ensures var r := MainAction(env, voltCacheDir);
            && (forall i :: 0 <= i < |r.entered| - 1 ==> StageCompletes(env, r.entered[i]))
            && (r.termination != ExitCode(0) ==> !StageCompletes(env, r.entered[|r.entered| - 1]))
  {
    TerminationOfRun(env, voltCacheDir);
    EnteredStagesCompleted(env, voltCacheDir, AllStages);
  }

  /** The build records the effects of the stages it entered, in order. */
  lemma MainActionTrace(env: Env, voltCacheDir: string)
    ensures var r := MainAction(env, voltCacheDir);
            r.actions == StageTrace(env, r.entered)
  {
    TerminationOfRun(env, voltCacheDir);
    RunActionsFollowEntered(env, voltCacheDir, AllStages);
  }

  /** How the process ends follows from how the last stage entered ended. */
  lemma TerminationOfRun(env: Env, voltCacheDir: string)
    ensures var run := RunStages(env, voltCacheDir, AllStages);
            var r := MainAction(env, voltCacheDir);
            && r.entered == run.entered && r.actions == run.actions && r.voltCacheDir == run.voltCacheDir
            && (r.termination == ExitCode(0) <==> run.outcome == Completed)
  {
    ExitsAreZeroOrOne(env, voltCacheDir, AllStages);
  }

  /** The exit codes of composer, npm and bower never change the build. */
  lemma InstallerExitsIgnored(env: Env, voltCacheDir: string, installExit: Installer -> int)
    ensures MainAction(env.(installExit := installExit), voltCacheDir) == MainAction(env, voltCacheDir)
  {
    var env' := env.(installExit := installExit);
    forall s: Stage, v: string
      ensures RunStage(env', v, s) == RunStage(env, v, s)
    {
    }
    RunStagesSameSteps(env, env', voltCacheDir, AllStages);
  }

  lemma {:induction false} RunStagesSameSteps(env: Env, env': Env, voltCacheDir: string, stages: seq<Stage>)
    requires forall s: Stage, v: string :: RunStage(env', v, s) == RunStage(env, v, s)
    ensures RunStages(env', voltCacheDir, stages) == RunStages(env, voltCacheDir, stages)
    decreases stages
  {
    if stages != [] {
      var step := RunStage(env, voltCacheDir, stages[0]);
      RunStagesSameSteps(env, env', step.voltCacheDir, stages[1..]);
    }
  }

  /** The recursive delete is only ever issued for `dist/` inside the
      project directory, and with a wrong dist directory nothing at all
      happens before the build dies. */
  lemma OnlyExpectedDistDeleted(env: Env, voltCacheDir: string)
    ensures var r := MainAction(env, voltCacheDir);
            && (forall a :: a in r.actions && a.RemoveTree? ==> a.path == ExpectedDistDir(env.projectDir))
            && (env.distDir != ExpectedDistDir(env.projectDir) ==> r.actions == [] && r.termination == Uncaught(CriticalError))
  {
    var first := RunStage(env, voltCacheDir, Clean);
    if first.outcome == Completed {
      var rest := RunStages(env, voltCacheDir, AllStages[1..]);
      NoRemoveAfterClean(env, voltCacheDir, AllStages[1..]);
      assert RunStages(env, voltCacheDir, AllStages).actions == first.actions + rest.actions;
    }
  }

  lemma {:induction false} NoRemoveAfterClean(env: Env, voltCacheDir: string, stages: seq<Stage>)
    requires Clean !in stages
    ensures forall a :: a in RunStages(env, voltCacheDir, stages).actions ==> !a.RemoveTree?
    decreases stages
  {
    if stages != [] {
      var step := RunStage(env, voltCacheDir, stages[0]);
      assert forall a :: a in step.actions ==> !a.RemoveTree? by {
        match stages[0]
        case Templates =>
          TemplatesActionKinds(env.views, env.distDir, voltCacheDir, env.compiles, env.errorOf);
        case LocaleCache =>
          LocaleActionKinds(KeysOf(env.conf.supported), LocaleCacheDir(env.distDir), env.compileLocale);
        case _ =>
      }
      if step.outcome == Completed {
        NoRemoveAfterClean(env, step.voltCacheDir, stages[1..]);
      }
    }
  }

  /** The template stage only compiles and logs. */
  lemma {:induction false} TemplatesActionKinds(v: Views, distDir: string, voltCacheDir: string,
                                               compiles: string -> bool, errorOf: string -> string)
    ensures forall a :: a in CompileVoltTemplates(v, distDir, voltCacheDir, compiles, errorOf).actions
              ==> a.CompileTemplate? || a.LogError?
  {
  }

  /** The locale stage only compiles and logs. */
  lemma {:induction false} LocaleActionKinds(locales: seq<Key>, cacheDir: string, compile: Key -> LocaleOutcome)
    ensures forall a :: a in CompileEach(locales, cacheDir, compile).actions ==> a.CompileLocale? || a.LogError?
    decreases locales
  {
    if locales != [] && compile(locales[0]) == Compiled {
      LocaleActionKinds(locales[1..], cacheDir, compile);
    }
  }

  /** After a build that exits with code 0 the template cache directory is
      back to its configured value. */
  lemma CacheDirRestoredOnSuccess(env: Env, voltCacheDir: string)
    ensures var r := MainAction(env, voltCacheDir);
            r.termination == ExitCode(0) ==> r.voltCacheDir == voltCacheDir
  {
    TerminationOfRun(env, voltCacheDir);
    CacheDirThreaded(env, voltCacheDir, AllStages);
  }

  lemma {:induction false} CacheDirThreaded(env: Env, voltCacheDir: string, stages: seq<Stage>)
    ensures var r := RunStages(env, voltCacheDir, stages);
            r.outcome == Completed ==> r.voltCacheDir == voltCacheDir
    decreases stages
  {
    if stages != [] {
      var step := RunStage(env, voltCacheDir, stages[0]);
      if step.outcome == Completed {
        CacheDirThreaded(env, step.voltCacheDir, stages[1..]);
      }
    }
  }

  /** `acts` ends with `bundle`, its `i`-th action is `yaml`, and no
      action after that one deletes anything. */
  predicate WrittenThenBundled(acts: seq<Action>, i: nat, yaml: Action, bundle: Action)
  {
    && i < |acts| - 1 && acts[i] == yaml && acts[|acts| - 1] == bundle
    && forall k :: i < k < |acts| ==> !acts[k].RemoveTree?
  }

  /** A failing bundler is fatal. The bundler is the last thing the build
      does; the merged configuration was written right after the effects
      of the six stages before the configuration stage, and nothing
      deleted anything after that write. */
  lemma WebpackFailureAfterConfig(env: Env, voltCacheDir: string)
    requires forall i :: 0 <= i < |AllStages| - 1 ==> StageCompletes(env, AllStages[i])
    requires env.webpackExit != 0
    ensures var r := MainAction(env, voltCacheDir);
            && r.termination == Uncaught(WebpackError)
            && WrittenThenBundled(r.actions, |StageTrace(env, AllStages[..6])|,
                                  EmitYaml(env.distDir + "/etc/config.yml", MergedConfig(env.conf)),
                                  BuildBundle(env.devDir))
  {
    WebpackFailureTrace(env, voltCacheDir);
    StageListFacts();
    ConfigBeforeBundle(env, AllStages);
  }

  /** In the trace of a stage list shaped like the build's (the bundler
      last, the configuration stage three before it, no clean stage in
      between), the bundler comes last, the merged configuration is written
      before it, and nothing is deleted after that write. */
  lemma ConfigBeforeBundle(env: Env, ss: seq<Stage>)
    requires |ss| == 10 && ss[9] == Bundle && ss[..9][6] == Config && Clean !in ss[..9][7..]
    ensures WrittenThenBundled(StageTrace(env, ss), |StageTrace(env, ss[..6])|,
                               EmitYaml(env.distDir + "/etc/config.yml", MergedConfig(env.conf)),
                               BuildBundle(env.devDir))
  {
    ConfigActions(env);
    BundleActions(env);
    EffectsNoRemove(env);
    ConfigBeforeBundleIn(StageEffects(env), ss, EmitYaml(env.distDir + "/etc/config.yml", MergedConfig(env.conf)),
                         BuildBundle(env.devDir));
  }

  /** Only the clean stage's effects delete. */
  lemma EffectsNoRemove(env: Env)
    ensures forall s :: s != Clean ==> forall a :: a in StageEffects(env)(s) ==> !a.RemoveTree?
  {
    forall s: Stage | s != Clean
      ensures forall a :: a in StageEffects(env)(s) ==> !a.RemoveTree?
    {
      StageNoRemove(env, "", s);
    }
  }

  /** The same, for any effects per stage in which the configuration stage
      only writes `yaml`, the bundler only runs `bundle`, and no stage but
      the clean stage deletes. */
  lemma ConfigBeforeBundleIn(effects: Stage -> seq<Action>, ss: seq<Stage>, yaml: Action, bundle: Action)
    requires |ss| == 10 && ss[9] == Bundle && ss[..9][6] == Config && Clean !in ss[..9][7..]
    requires effects(Config) == [yaml] && effects(Bundle) == [bundle] && !bundle.RemoveTree?
    requires forall s :: s != Clean ==> forall a :: a in effects(s) ==> !a.RemoveTree?
    ensures WrittenThenBundled(Concat(effects, ss), |Concat(effects, ss[..6])|, yaml, bundle)
  {
    var front := ss[..9];
    assert front[..6] == ss[..6];
    ConcatSplit(effects, ss, 9);
    assert ss[10..] == [];
    ConcatSplit(effects, front, 6);
    ConcatNoRemove(effects, front[7..]);
    ConfigThenBundle(Concat(effects, ss), Concat(effects, front[..6]), yaml, Concat(effects, front[7..]), bundle);
  }

  /** A concatenation split around its `k`-th stage. */
  lemma ConcatSplit(effects: Stage -> seq<Action>, ss: seq<Stage>, k: nat)
    requires k < |ss|
    ensures Concat(effects, ss) == Concat(effects, ss[..k]) + effects(ss[k]) + Concat(effects, ss[k + 1..])
  {
    MiddleSplit(ss, k);
    ConcatAppend(effects, ss[..k], ss[k..]);
    ConcatCons(effects, ss[k], ss[k + 1..]);
  }

  lemma MiddleSplit(ss: seq<Stage>, k: nat)
    requires k < |ss|
    ensures ss[k..] == [ss[k]] + ss[k + 1..] && ss == ss[..k] + ss[k..]
  {
  }

  /** Stages none of which deletes make a concatenation with no deletion. */
  lemma {:induction false} ConcatNoRemove(effects: Stage -> seq<Action>, ss: seq<Stage>)
    requires forall s :: s != Clean ==> forall a :: a in effects(s) ==> !a.RemoveTree?
    requires Clean !in ss
    ensures forall a :: a in Concat(effects, ss) ==> !a.RemoveTree?
    decreases ss
  {
    if ss != [] {
      ConcatNoRemove(effects, ss[1..]);
    }
  }

  /** When only the bundler fails, every stage is entered and the build's
      effects are the whole trace. */
  lemma WebpackFailureTrace(env: Env, voltCacheDir: string)
    requires forall i :: 0 <= i < |AllStages| - 1 ==> StageCompletes(env, AllStages[i])
    requires env.webpackExit != 0
    ensures var r := MainAction(env, voltCacheDir);
            r.termination == Uncaught(WebpackError) && r.actions == StageTrace(env, AllStages)
  {
    FirstFailingStage(env, voltCacheDir, AllStages, 9);
    AllStagesWhole();
    TerminationOfRun(env, voltCacheDir);
    RunActionsFollowEntered(env, voltCacheDir, AllStages);
  }

  /** Read off a trace `pre + [yaml] + post + [bundle]` in which `post`
      deletes nothing: the bundle comes last, and after the write of `yaml`
      nothing is deleted. */
  lemma ConfigThenBundle(acts: seq<Action>, pre: seq<Action>, yaml: Action, post: seq<Action>, bundle: Action)
    requires acts == pre + [yaml] + post + [bundle]
    requires !bundle.RemoveTree?
    requires forall a :: a in post ==> !a.RemoveTree?
    ensures WrittenThenBundled(acts, |pre|, yaml, bundle)
  {
    var i := |pre|;
    assert acts[i] == yaml;
    forall k | i < k < |acts|
      ensures !acts[k].RemoveTree?
    {
      if k < |acts| - 1 {
        assert acts[k] == post[k - i - 1];
      }
    }
  }

  lemma AllStagesWhole()
    ensures AllStages[..10] == AllStages
  {
  }

  /** Where the configuration and bundler stages sit in the fixed order. */
  lemma StageListFacts()
    ensures |AllStages| == 10 && AllStages[9] == Bundle && AllStages[10..] == []
    ensures AllStages[..9][6] == Config && Clean !in AllStages[..9][7..]
  {
    assert AllStages[..9][7..] == [Packages, LocaleCache];
  }

  lemma StageTraceCons(env: Env, s: Stage, rest: seq<Stage>)
    ensures StageTrace(env, [s] + rest) == StageActions(env, s) + StageTrace(env, rest)
  {
    ConcatCons(StageEffects(env), s, rest);
  }

  lemma ConfigActions(env: Env)
    ensures StageActions(env, Config) == [EmitYaml(env.distDir + "/etc/config.yml", MergedConfig(env.conf))]
  {
  }

  lemma BundleActions(env: Env)
    ensures StageActions(env, Bundle) == [BuildBundle(env.devDir)]
  {
  }

  /** Only the clean stage deletes. */
  lemma StageNoRemove(env: Env, voltCacheDir: string, s: Stage)
    requires s != Clean
    ensures forall a :: a in RunStage(env, voltCacheDir, s).actions ==> !a.RemoveTree?
  {
    match s
    case Templates =>
      TemplatesActionKinds(env.views, env.distDir, voltCacheDir, env.compiles, env.errorOf);
    case LocaleCache =>
      LocaleActionKinds(KeysOf(env.conf.supported), LocaleCacheDir(env.distDir), env.compileLocale);
    case _ =>
  }

  /** A locale compiler exception, with every earlier stage returning
      normally, ends the process with exit code 1 before the bundler runs. */
  lemma LocaleFailureExitsOne(env: Env, voltCacheDir: string, i: nat)
    requires forall j :: 0 <= j < 8 ==> StageCompletes(env, AllStages[j])
    requires var ks := KeysOf(env.conf.supported);
             && i < |ks| && env.compileLocale(ks[i]).CompilerException?
             && forall j :: 0 <= j < i ==> env.compileLocale(ks[j]) == Compiled
    ensures var r := MainAction(env, voltCacheDir);
            r.termination == ExitCode(1) && Bundle !in r.entered
            && forall a :: a in r.actions ==> !a.BuildBundle?
  {
    LocaleStageExits(env, i);
    FirstFailingStage(env, voltCacheDir, AllStages, 8);
    TerminationOfRun(env, voltCacheDir);
    BundleIsLast();
    NoBundleUnlessEntered(env, voltCacheDir, AllStages);
  }

  /** The bundler is the last stage. */
  lemma BundleIsLast()
    ensures Bundle !in AllStages[..9] && AllStages[9] == Bundle
  {
    assert AllStages[..9] == [Clean, Skeleton, Templates, PhalconCode, EntryPoints, Copy, Config, Packages, LocaleCache];
  }

  /** The locale stage exits with code 1 when the first locale that fails
      raised a compiler exception. */
  lemma LocaleStageExits(env: Env, i: nat)
    requires var ks := KeysOf(env.conf.supported);
             && i < |ks| && env.compileLocale(ks[i]).CompilerException?
             && forall j :: 0 <= j < i ==> env.compileLocale(ks[j]) == Compiled
    ensures RunStage(env, "", LocaleCache).outcome == Exited(1)
  {
    LocalesOutcomeIff(env.conf.supported, env.distDir, env.compileLocale);
  }

  /** Only the bundler stage runs the bundler. */
  lemma StageNoBundle(env: Env, voltCacheDir: string, s: Stage)
    requires s != Bundle
    ensures forall a :: a in RunStage(env, voltCacheDir, s).actions ==> !a.BuildBundle?
  {
    match s
    case Templates =>
      TemplatesActionKinds(env.views, env.distDir, voltCacheDir, env.compiles, env.errorOf);
    case LocaleCache =>
      LocaleActionKinds(KeysOf(env.conf.supported), LocaleCacheDir(env.distDir), env.compileLocale);
    case _ =>
  }

  /** Only the bundler stage builds the bundle, so a run that never entered
      it built none. */
  lemma {:induction false} NoBundleUnlessEntered(env: Env, voltCacheDir: string, stages: seq<Stage>)
    requires Bundle !in RunStages(env, voltCacheDir, stages).entered
    ensures forall a :: a in RunStages(env, voltCacheDir, stages).actions ==> !a.BuildBundle?
    decreases stages
  {
    if stages != [] {
      var step := RunStage(env, voltCacheDir, stages[0]);
      assert RunStages(env, voltCacheDir, stages).entered[0] == stages[0];
      StageNoBundle(env, voltCacheDir, stages[0]);
      if step.outcome == Completed {
        var rest := RunStages(env, step.voltCacheDir, stages[1..]);
        assert forall x :: x in rest.entered ==> x in RunStages(env, voltCacheDir, stages).entered;
        NoBundleUnlessEntered(env, step.voltCacheDir, stages[1..]);
      }
    }
  }

  /** When stage `k` is the first that does not return normally, stages
      0..k are entered, no later one, and the run ends as stage `k` did. */
  lemma {:induction false} FirstFailingStage(env: Env, voltCacheDir: string, stages: seq<Stage>, k: nat)
    requires k < |stages| && !StageCompletes(env, stages[k])
    requires forall i :: 0 <= i < k ==> StageCompletes(env, stages[i])
    ensures var r := RunStages(env, voltCacheDir, stages);
            r.entered == stages[..k + 1] && r.outcome == RunStage(env, "", stages[k]).outcome
    decreases k
  {
    var step := RunStage(env, voltCacheDir, stages[0]);
    StageOutcomeIgnoresCacheDir(env, voltCacheDir, "", stages[0]);
    if k == 0 {
      assert step.outcome != Completed;
      assert stages[..1] == [stages[0]];
    } else {
      assert step.outcome == Completed by { assert StageCompletes(env, stages[0]); }
      var tail := stages[1..];
      forall i | 0 <= i < k - 1
        ensures StageCompletes(env, tail[i])
      {
        assert tail[i] == stages[i + 1];
      }
      var rest := RunStages(env, step.voltCacheDir, tail);
      assert RunStages(env, voltCacheDir, stages).entered == [stages[0]] + rest.entered;
      assert RunStages(env, voltCacheDir, stages).outcome == rest.outcome;
      FirstFailingStage(env, step.voltCacheDir, tail, k - 1);
      assert stages[..k + 1] == [stages[0]] + tail[..k];
    }
  }

  /** With the stages before it returning normally, the configuration stage
      runs and writes the merged document. */
  lemma StagesUpToConfig(env: Env, voltCacheDir: string)
    requires forall i :: 0 <= i < 6 ==> StageCompletes(env, AllStages[i])
    ensures EmitYaml(env.distDir + "/etc/config.yml", MergedConfig(env.conf)) in MainAction(env, voltCacheDir).actions
  {
    var yaml := EmitYaml(env.distDir + "/etc/config.yml", MergedConfig(env.conf));
    ConfigReached(env, voltCacheDir, AllStages, 6);
  }

  /** When the stages before position `k` return normally, stage `k` runs
      and its effects (here, the configuration written) are part of the run. */
  lemma {:induction false} ConfigReached(env: Env, voltCacheDir: string, stages: seq<Stage>, k: nat)
    requires k < |stages| && stages[k] == Config
    requires forall i :: 0 <= i < k ==> StageCompletes(env, stages[i])
    ensures EmitYaml(env.distDir + "/etc/config.yml", MergedConfig(env.conf)) in RunStages(env, voltCacheDir, stages).actions
    decreases k
  {
    var step := RunStage(env, voltCacheDir, stages[0]);
    if k == 0 {
      assert step.actions[0] == EmitYaml(env.distDir + "/etc/config.yml", MergedConfig(env.conf));
    } else {
      StageOutcomeIgnoresCacheDir(env, voltCacheDir, "", stages[0]);
      assert StageCompletes(env, stages[0]);
      ConfigReached(env, step.voltCacheDir, stages[1..], k - 1);
    }
  }
}
