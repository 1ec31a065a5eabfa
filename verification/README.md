# Dist build pipeline of the Webird CLI, modelled in Dafny

This project models `BuildTask`, the command-line task that builds the
distribution ("dist") tree of a Webird application. `mainAction` runs these
stages in a fixed order:

1. delete the old dist directory, behind a safety check;
2. create the directory skeleton;
3. compile every Volt template into the dist template cache;
4. copy the PHP code, or encode it with ionCube;
5. write the entry-point scripts;
6. copy the package manifests, assets and schema;
7. merge three configuration documents with `array_replace_recursive` and
   write the result as YAML;
8. run the package installers;
9. compile the supported locales;
10. run the webpack bundler.

The outside world is turned into inputs:

- the directory trees as `readdir` returns them;
- whether each template or locale compiles;
- the exit code of each shell command;
- whether the dist directory exists;
- the configuration values, already parsed.

Every filesystem change, command, compiler call and log line is recorded as
an `Action`, in order. Each stage ends as `Completed`, `Threw(message)` or
`Exited(code)`.

Modules:

- `Outcomes`: `Option`, `Outcome` and `Distinct`.
- `PhpArray`: ordered PHP arrays, with `$a[$k]` lookup and assignment and
  `array_replace_recursive`.
- `Effects`: the `Action` record of observable effects.
- `DistPaths`: `cleanDirectoryStructure` and `buildDirectoryStructure`.
- `VoltWalk`: the recursive walk `compileVoltDir`.
- `VoltTemplates`: `compileVoltTemplates` and `compileVoltTemplateForModule`.
- `ConfigMerge`: `buildConf`.
- `PhpEncoder`: `buildPhalconDir`.
- `Locales`: `compileLocales`.
- `BuildPipeline`: `mainAction`, `makeEntryPoints`, `copyFiles`,
  `installPackages` and `buildWebpack`.

Some of what the code does may surprise a reader, and the model follows
the code in each case:

- **Template failures stop the walk.** `compileVoltDir` catches nothing,
  so the first compile that throws ends the walk. Later files in the tree
  are not compiled.
- **An admin failure skips web.** The admin and web module walks share one
  try/catch. A failure in admin is logged once, and the web views are never
  compiled.
- **Simple and partials failures are fatal.** An exception in the simple
  views or the common partials is uncaught, so it ends the build.
- **The cache directory is not always restored.** The code has no
  `finally`, so an exception from the simple views or the partials leaves
  `voltCacheDir` pointing into the dist tree.
- **Lists are merged by index.** `array_replace_recursive` merges any two
  arrays, lists included, position by position. A list in the dist settings
  does not replace a longer default list wholesale.
- **Stale supported locales survive.** For the same reason, locales listed
  as supported in an earlier layer stay in the shipped `locale.supported`.
- **Skeleton, copy and `chdir` failures are not fatal.** The return values
  of `mkdir`, `copy` and `chdir` are never checked. When `chdir` into the
  dist directory fails, the installers run in the earlier working directory.
- **`cache-static/locale/` is not created.** The skeleton stage never
  creates the directory the locale stage compiles into.
- **Only compiler exceptions exit with code 1.** Only a
  `LocaleCompilerException` leads to `exit(1)`. Any other exception from the
  locale compiler propagates uncaught.
- **Installer exit codes are ignored.** They are collected into `$ret` and
  never looked at, and neither is the ionCube encoder's.

## Model

| member | source | states |
|---|---|---|
| `PhpArray.Lookup` | app/phalcon/modules/cli/tasks/BuildTask.php:285 | A key is found exactly when it is one of the array's keys, and the value found is the one stored with it. |
| `PhpArray.Put` | app/phalcon/modules/cli/tasks/BuildTask.php:279 | Assigning an existing key overwrites it in place and keeps the key order. A new key is appended. The key then holds the new value, and every other key keeps its old value. |
| `PhpArray.ReplaceKeys` | app/phalcon/modules/cli/tasks/BuildTask.php:285 | The merged array has the base's keys in their order, then the replacement's new keys in their order. |
| `PhpArray.ApplyKeys` | app/phalcon/modules/cli/tasks/BuildTask.php:285 | After the first `n` entries of the replacement are applied, the keys are the base's keys, then the new keys among those `n` entries, in order. |
| `PhpArray.ApplyLookup` | app/phalcon/modules/cli/tasks/BuildTask.php:285 | After the first `n` entries of the replacement are applied, a key among them holds the merge of its base value and its replacement value. Any other key holds its base value. |
| `PhpArray.ReplaceLookup` | app/phalcon/modules/cli/tasks/BuildTask.php:285 | A key only in the base keeps its value. A replacement value wins unless both sides hold arrays. When both hold arrays, they are merged recursively. |
| `PhpArray.ReplaceWellFormed` | app/phalcon/modules/cli/tasks/BuildTask.php:285 | Merging two arrays with unique keys at every level gives an array with unique keys at every level. |
| `PhpArray.ReplaceEmptyOverlay` | app/phalcon/modules/cli/tasks/BuildTask.php:285 | Merging an empty replacement leaves the base unchanged. |
| `PhpArray.ReplaceOntoEmpty` | app/phalcon/modules/cli/tasks/BuildTask.php:285 | Merging into an empty array gives the replacement itself. |
| `PhpArray.ReplaceIdempotent` | app/phalcon/modules/cli/tasks/BuildTask.php:285 | Merging the same replacement twice is the same as merging it once. |
| `PhpArray.ReplaceAllSnoc` | app/phalcon/modules/cli/tasks/BuildTask.php:285 | With several replacement documents, each is merged into the result of the previous ones, left to right. |
| `DistPaths.DistDirRejected` | app/phalcon/modules/cli/tasks/BuildTask.php:99 | The three-part guard rejects the dist directory exactly when it is not the project directory followed by `dist/`. |
| `DistPaths.ExpectedDistDirShape` | app/phalcon/modules/cli/tasks/BuildTask.php:99 | The accepted dist directory ends in `dist/`, so it is never `""` or `/`. The last two parts of the guard are therefore redundant. |
| `DistPaths.CleanDirectoryStructure` | app/phalcon/modules/cli/tasks/BuildTask.php:91-108 | `rm -Rf` is issued only for the project's `dist/`, and only when it exists. The critical error is thrown, with no action, exactly when the dist directory is wrong. A nonzero `rm` exit on the expected, existing directory throws the delete error. The stage completes exactly when the check passes and the delete (if any) succeeds. |
| `DistPaths.BuildDirectoryStructure` | app/phalcon/modules/cli/tasks/BuildTask.php:113-124 | It makes five directories, all inside the dist directory: the dist directory first, then the other four, which are `public/`, `etc/`, `cache-static/` and the template cache `cache-static/volt/`. The order of those four is not stated beyond each parent coming before its child, which `SkeletonParentsFirst` states. It always completes. |
| `DistPaths.SkeletonParentsFirst` | app/phalcon/modules/cli/tasks/BuildTask.php:119-123 | Every directory the skeleton creates sits directly below one created earlier. |
| `VoltWalk.CompileVoltDir` | app/phalcon/modules/cli/tasks/BuildTask.php:187-208 | A walk that threw ended with a compile call that failed. |
| `VoltWalk.WalkStopsAtFirstFailure` | app/phalcon/modules/cli/tasks/BuildTask.php:187-208 | The paths compiled are a prefix of the tree's files in depth-first `readdir` order. Every call before the last returned normally. The walk threw exactly when its last call failed. Otherwise every file was compiled. |
| `VoltWalk.WalkCompilesEveryFile` | app/phalcon/modules/cli/tasks/BuildTask.php:189-204 | When every file compiles, the walk compiles every file of the tree in depth-first `readdir` order and returns normally. |
| `VoltWalk.WalkThrowsIffSomeFileFails` | app/phalcon/modules/cli/tasks/BuildTask.php:196-202 | The walk throws exactly when some file below the root fails to compile. |
| `VoltWalk.TemplateFilesCoverage` | app/phalcon/modules/cli/tasks/BuildTask.php:190-203 | A path is compiled exactly when it is the root followed by the relative path of a file at any depth. Directories are entered with a trailing `/`. `.` and `..` are never followed. |
| `VoltWalk.TemplateFilesDistinct` | app/phalcon/modules/cli/tasks/BuildTask.php:190-203 | In a tree with unique, slash-free names per directory, no path is listed twice. |
| `VoltWalk.EachFileCompiledOnce` | app/phalcon/modules/cli/tasks/BuildTask.php:190-203 | When nothing fails, every file of the tree is handed to the compiler exactly once. |
| `VoltTemplates.ModuleTemplates` | app/phalcon/modules/cli/tasks/BuildTask.php:141-146 | Every compile inside the module try/catch uses the cache directory in force. Its logging and web-skipping behaviour is stated by `AdminFailureSkipsWeb`, `WebAfterAdmin` and `ModulesFullRun`. |
| `VoltTemplates.CompileVoltTemplates` | app/phalcon/modules/cli/tasks/BuildTask.php:129-164 | Every compile uses the dist template cache directory. The stage completes or throws, never exits. Completing restores the configured cache directory. Throwing leaves it pointing into the dist tree. |
| `VoltTemplates.AdminFailureSkipsWeb` | app/phalcon/modules/cli/tasks/BuildTask.php:141-146 | When the admin walk throws, exactly one line is logged, carrying that exception's message. No web view is compiled, and the admin files compiled are a prefix of the admin tree. |
| `VoltTemplates.AdminFailureSkipsWebInStage` | app/phalcon/modules/cli/tasks/BuildTask.php:141-162 | For the whole stage: when the admin walk throws, exactly its message is logged and no web view is compiled, whatever the simple views and partials do. |
| `VoltTemplates.WebAfterAdmin` | app/phalcon/modules/cli/tasks/BuildTask.php:141-146 | When admin compiles fully, the web walk follows. Only a web failure is logged. |
| `VoltTemplates.SimpleViewsAlwaysWalked` | app/phalcon/modules/cli/tasks/BuildTask.php:141-151 | Whatever the module walks do, the simple views are walked next. |
| `VoltTemplates.TemplatesCompleteIff` | app/phalcon/modules/cli/tasks/BuildTask.php:141-164 | The stage completes exactly when every simple view and every common partial compiles. Module view failures never decide it. |
| `VoltTemplates.SimpleFailureEndsStage` | app/phalcon/modules/cli/tasks/BuildTask.php:148-163 | When the simple views throw, the stage ends with that exception. Its effects are the module walks and the simple walk only, no common partial is compiled, and the cache directory stays redirected. |
| `VoltTemplates.TemplatesThrowComesFromSimpleOrPartials` | app/phalcon/modules/cli/tasks/BuildTask.php:149-162 | A thrown stage carries the message of a simple view or common partial that failed. The cache directory is left redirected. |
| `VoltTemplates.ModulesFullRun` | app/phalcon/modules/cli/tasks/BuildTask.php:169-182 | When no module view fails, all admin views and then all web views are compiled, and nothing is logged. |
| `VoltTemplates.TemplatesFullRun` | app/phalcon/modules/cli/tasks/BuildTask.php:129-182 | When nothing fails, the four trees are compiled in full into the dist cache, in the order admin, web, simple, partials. The cache directory is then restored. |
| `VoltTemplates.TemplatesRootsInOrder` | app/phalcon/modules/cli/tasks/BuildTask.php:141-160 | The compile calls never go back to an earlier tree. |
| `ConfigMerge.LocaleOverlay` | app/phalcon/modules/cli/tasks/BuildTask.php:278-282 | The third document has exactly the key `locale`. Its `supported` is the supported-locales array, and its other keys come from the locale configuration. |
| `ConfigMerge.MergedConfig` | app/phalcon/modules/cli/tasks/BuildTask.php:285 | The three-document merge is the dist settings over the defaults, then the locale document over that. |
| `ConfigMerge.BuildConf` | app/phalcon/modules/cli/tasks/BuildTask.php:268-289 | The stage writes one YAML file, `etc/config.yml` in the dist directory, holding the locale document merged over the dist settings merged over the defaults. It always completes. Its key-by-key content is stated by the `Merge*` and `Supported*` rows. |
| `ConfigMerge.MergeKeepsDefaults` | app/phalcon/modules/cli/tasks/BuildTask.php:275-285 | A top-level key other than `locale` that the dist settings do not set keeps its default. |
| `ConfigMerge.MergeOverridesDefaults` | app/phalcon/modules/cli/tasks/BuildTask.php:275-285 | A key the dist settings set takes their value, merged into the default when both are arrays. |
| `ConfigMerge.MergedKeys` | app/phalcon/modules/cli/tasks/BuildTask.php:285 | The merged keys are the default keys, then the keys the dist settings add, then `locale` if it is new. |
| `ConfigMerge.MergedLocale` | app/phalcon/modules/cli/tasks/BuildTask.php:278-285 | The merged `locale` is the earlier locale array merged with the locale configuration carrying the supported locales. |
| `ConfigMerge.MergedSupported` | app/phalcon/modules/cli/tasks/BuildTask.php:279-285 | The merged `locale.supported` is the earlier one merged with the supported locales when both are arrays. Otherwise it is the supported locales. |
| `ConfigMerge.SupportedLocalesReachMerged` | app/phalcon/modules/cli/tasks/BuildTask.php:279-285 | Every supported locale appears in the merged `locale.supported` with its value. Without an earlier `supported`, that array is exactly the supported locales. |
| `ConfigMerge.SupportedKeepsEarlierLocales` | app/phalcon/modules/cli/tasks/BuildTask.php:279-285 | A locale listed by an earlier layer and no longer supported stays in the merged `locale.supported`. |
| `ConfigMerge.StaleLocaleShipped` | app/phalcon/modules/cli/tasks/BuildTask.php:279-285 | Concrete case: defaults supporting en_US and fr_FR, with only en_US reported, still ship fr_FR. |
| `PhpEncoder.BuildPhalconDir` | app/phalcon/modules/cli/tasks/BuildTask.php:55-86 | It completes or throws. A throw has no action. Otherwise it does nothing, makes one plain copy into `dist/phalcon`, or makes one encoder run with a registered executable. |
| `PhpEncoder.EncoderUnsetThrows` | app/phalcon/modules/cli/tasks/BuildTask.php:65-67 | It throws "not set", with no action, exactly when `phpEncode` is missing or null. |
| `PhpEncoder.PlainCopyIffEmpty` | app/phalcon/modules/cli/tasks/BuildTask.php:70-71 | The plain recursive copy happens exactly when the setting is set and PHP-empty (false, 0, "" or "0"). |
| `PhpEncoder.UnknownEncoderThrows` | app/phalcon/modules/cli/tasks/BuildTask.php:73-75 | A non-empty setting throws the unknown-encoder error, naming it, exactly when no encoder is registered under its string form. No command is built. |
| `PhpEncoder.IoncubeIff` | app/phalcon/modules/cli/tasks/BuildTask.php:77-83 | The encoder runs exactly when the setting is loosely equal to 'ioncube' and registered. It then runs once, with the registered executable, into the dist directory. |
| `PhpEncoder.TrueSelectsEncoderOne` | app/phalcon/modules/cli/tasks/BuildTask.php:73-83 | A setting of `true` runs the encoder registered under "1" as ionCube. |
| `PhpEncoder.OtherEncoderDoesNothing` | app/phalcon/modules/cli/tasks/BuildTask.php:79-84 | A registered, non-empty setting that is not 'ioncube' is accepted and does nothing, and only such a setting does. |
| `PhpEncoder.EncoderExitIgnored` | app/phalcon/modules/cli/tasks/BuildTask.php:82 | The encoder's exit code never changes what the stage does or how it ends. |
| `Locales.CompileLocales` | app/phalcon/modules/cli/tasks/BuildTask.php:311-333 | Every compile goes to the dist locale cache and is for a supported locale. The stage completes, exits with 1, or throws. |
| `Locales.CompileEach` | app/phalcon/modules/cli/tasks/BuildTask.php:319-332 | Each compile goes to the given cache directory and is for one of the given locales. The loop records at most one action more than there are locales, and it completes, exits with 1, or throws. |
| `Locales.AllLocalesCompiled` | app/phalcon/modules/cli/tasks/BuildTask.php:319-332 | When every locale compiles, each is compiled once, in key order, and the stage completes. |
| `Locales.FirstFailingLocale` | app/phalcon/modules/cli/tasks/BuildTask.php:319-331 | At the first failing locale, it and all earlier locales were attempted and no later one. A compiler exception is logged and exits with 1. Any other exception propagates unlogged. |
| `Locales.LocalesOutcomeIff` | app/phalcon/modules/cli/tasks/BuildTask.php:319-331 | The stage completes exactly when every locale compiles. It exits with 1 exactly when the first failure is a compiler exception. |
| `BuildPipeline.MakeEntryPoints` | app/phalcon/modules/cli/tasks/BuildTask.php:213-232 | It writes both scripts, `webird.php` and `public/index.php`, inside the dist directory, and makes the CLI script executable after writing it. |
| `BuildPipeline.CopyFiles` | app/phalcon/modules/cli/tasks/BuildTask.php:237-263 | Every copy lands inside the dist directory. The stage never fails. |
| `BuildPipeline.InstallPackages` | app/phalcon/modules/cli/tasks/BuildTask.php:294-306 | Composer, npm and bower each run once, in that order. They run in the dist directory when `chdir` into it succeeds, and in the earlier working directory when it fails. The stage completes whatever they return. |
| `BuildPipeline.BuildWebpack` | app/phalcon/modules/cli/tasks/BuildTask.php:338-348 | The bundler runs in the development directory. The stage completes exactly when it exits with 0, and otherwise throws the webpack error. |
| `BuildPipeline.RunStage` | app/phalcon/modules/cli/tasks/BuildTask.php:35-47 | Only the template stage changes the cache directory. Only the locale stage can exit, with code 1. |
| `BuildPipeline.RunStages` | app/phalcon/modules/cli/tasks/BuildTask.php:35-47 | The stages entered are a prefix of those given. A run that completes entered them all. |
| `BuildPipeline.RunActionsFollowEntered` | app/phalcon/modules/cli/tasks/BuildTask.php:35-47 | The recorded effects are exactly those of the stages entered, each stage's effects after the previous stage's, in the order the stages were entered (`StageTrace`). Every stage's effects are the same whatever the cache directory it starts with. |
| `BuildPipeline.MainAction` | app/phalcon/modules/cli/tasks/BuildTask.php:24-50 | Exit code 0 comes only after every stage was entered. The only exit codes are 0 and 1. |
| `BuildPipeline.EnteredStagesCompleted` | app/phalcon/modules/cli/tasks/BuildTask.php:35-47 | Every stage entered before the last completed. The last one decides how the run ends. The run completes exactly when every stage does. |
| `BuildPipeline.StageCompletesIff` | app/phalcon/modules/cli/tasks/BuildTask.php:35-47 | Each stage's completion is stated in terms of the inputs. Skeleton, entry points, copy, config and packages always complete. |
| `BuildPipeline.BuildSucceedsIff` | app/phalcon/modules/cli/tasks/BuildTask.php:35-49 | The build exits with 0 exactly when every stage completes. |
| `BuildPipeline.StagesRunInOrder` | app/phalcon/modules/cli/tasks/BuildTask.php:35-47 | The stages entered are a prefix of clean, skeleton, templates, code, entry points, copy, config, packages, locales, webpack. The build's effects are those stages' effects, stage after stage in that order. All but the last stage completed, and a failed build's last stage did not. |
| `BuildPipeline.FirstFailingStage` | app/phalcon/modules/cli/tasks/BuildTask.php:35-47 | At the first failing stage, it and all earlier stages were entered and no later one. The run ends as that stage did. |
| `BuildPipeline.InstallerExitsIgnored` | app/phalcon/modules/cli/tasks/BuildTask.php:301-303 | The installers' exit codes never change anything the build does. |
| `BuildPipeline.OnlyExpectedDistDeleted` | app/phalcon/modules/cli/tasks/BuildTask.php:91-108 | The build only ever deletes the project's `dist/`. With a wrong dist directory it does nothing and dies with the critical error. |
| `BuildPipeline.CacheDirRestoredOnSuccess` | app/phalcon/modules/cli/tasks/BuildTask.php:134-162 | After a build that exits with 0, the cache directory holds its configured value again. |
| `BuildPipeline.WebpackFailureAfterConfig` | app/phalcon/modules/cli/tasks/BuildTask.php:44-47 | A failing bundler ends the build with the webpack error. The bundler run is the build's last effect. The merged configuration is written right after the effects of the six stages before the configuration stage (`WrittenThenBundled`), and nothing is deleted after that write. |
| `BuildPipeline.ConfigBeforeBundle` | app/phalcon/modules/cli/tasks/BuildTask.php:44-47 | For any list of stages shaped like the build's order, the trace holds the configuration write right after the first six stages' effects and ends with the bundler run. Nothing between them deletes. |
| `BuildPipeline.LocaleFailureExitsOne` | app/phalcon/modules/cli/tasks/BuildTask.php:319-331 | A locale compiler exception ends the build with exit code 1, and the bundler never runs. |

## Left out

- **Real side effects.** Shell commands, filesystem calls (`mkdir`, `copy`,
  `chmod`, `file_put_contents`, `chdir`, `opendir`/`readdir`, `is_dir`) and
  `echo` output are not performed. The outcomes the code reacts to are
  inputs: exit codes, whether the dist directory exists, whether `chdir`
  succeeds, and what `getcwd` returns. Their effects are recorded as
  `Action` values. The two `chdir` calls themselves are not recorded, and a
  `getcwd` that fails is not modelled.
- **Argument parsing.** `parseArgs` (lines 26-33) and any usage or help exit
  it may take belong to the framework's base task.
- **Foreign code.** The Volt compiler, the view services, `getViewFunc`,
  `LocaleCompiler` and the DI container are not modelled. A template compile
  or locale compile either succeeds or throws. The exception message is an
  input (`errorOf`, or the `LocaleOutcome` message). The module views
  directory is an input. The layout and partial directories that
  `compileVoltTemplateForModule` computes are not modelled, because the code
  never reads them. Failures of
  these services outside a compile call are not modelled.
- **Directory walk edge cases.** An `opendir` failure, symbolic-link loops
  and a `readdir` that changes during the walk are not modelled. The tree
  is given as it is read.
- **YAML.** Parsing and emitting are not modelled, including the `false`
  that `yaml_parse_file` returns on failure. The merge works on documents
  already parsed into arrays.
- **PHP array details.** Floats, objects and the automatic casting of
  numeric-string keys to integers are not modelled. Keys are assumed to be
  cast already.
- **Shell escaping.** `escapeshellarg` and `escapeshellcmd` are not
  modelled, nor the unescaped paths on line 258. Commands are recorded by
  their arguments.
- **Locale compiler arguments.** The compiler's `domains` and `localeDir`
  arguments are not recorded, and neither is its return value, which the
  code ignores.
- **Entry-point scripts.** Their fixed contents are not recorded. Neither
  is the numeric code (`1`) passed as the second argument of the
  exceptions.
- **Process exit status.** An uncaught exception is recorded as
  `Uncaught(message)`. PHP's own exit status for it is not modelled.
- **Encoder configuration.** A `phpEncode` that is an array, and encoder
  entries whose value is null, are not modelled. The latter count as
  unregistered, as `isset` would treat them.
- **Demo controller.** The demo HTTP controller is not part of the build
  and is not part of this model.
- ConfigMerge.SupportedLocalesReachMerged: states the merged value of a
  supported locale only for scalar values. The locale service reports
  `true` for each locale, and an array value would be merged with an
  earlier array by the rule `PhpArray.ReplaceLookup` states.
- BuildPipeline.MakeEntryPoints: states where the scripts go and the write
  before the `chmod`, but not the scripts' fixed contents.
- BuildPipeline.CopyFiles: states that every copy lands inside the dist
  directory, but not each manifest's exact source and destination names.
