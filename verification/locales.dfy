/** `compileLocales` (app/phalcon/modules/cli/tasks/BuildTask.php:311-333):
    each supported locale, in key order, is handed to the locale compiler.
    A `LocaleCompilerException` is logged and ends the script with exit
    code 1; any other exception propagates. What the compiler returns is
    not looked at. */
module Locales {
  import opened Outcomes
  import opened PhpArray
  import opened Effects

  /** How one call of the locale compiler ends. */
  datatype LocaleOutcome = Compiled | CompilerException(message: string) | OtherException(message: string)

  /** Where the compiled locales of the dist build go. */
  function LocaleCacheDir(distDir: string): string
  {
    distDir + "cache-static/locale/"
  }

  /** One compiler call per locale, in order. */
  function LocaleCalls(locales: seq<Key>, cacheDir: string): (acts: seq<Action>)
    ensures |acts| == |locales|
    ensures forall i :: 0 <= i < |acts| ==> acts[i] == CompileLocale(locales[i], cacheDir)
  {
    seq(|locales|, i requires 0 <= i < |locales| => CompileLocale(locales[i], cacheDir))
  }

  /** The loop body and the rest of the loop. */
  function CompileEach(locales: seq<Key>, cacheDir: string, compile: Key -> LocaleOutcome): (r: StageResult)
    ensures r.outcome == Completed || r.outcome == Exited(1) || r.outcome.Threw?
    ensures forall a :: a in r.actions && a.CompileLocale? ==> a.cacheDir == cacheDir && a.locale in locales
    ensures |r.actions| <= |locales| + 1
    decreases locales
  {
    if locales == [] then StageResult([], Completed)
    else
      var call := CompileLocale(locales[0], cacheDir);
      match compile(locales[0])
      case Compiled =>
        var rest := CompileEach(locales[1..], cacheDir, compile);
        StageResult([call] + rest.actions, rest.outcome)
      case CompilerException(m) => StageResult([call, LogError(m)], Exited(1))
      case OtherException(m) => StageResult([call], Threw(m))
  }

  /** `compileLocales`: the keys of the supported-locales array, compiled
      into the dist locale cache. */
  function CompileLocales(supported: seq<Entry>, distDir: string, compile: Key -> LocaleOutcome): (r: StageResult)
    ensures r.outcome == Completed || r.outcome == Exited(1) || r.outcome.Threw?
    ensures forall a :: a in r.actions && a.CompileLocale? ==> a.cacheDir == LocaleCacheDir(distDir) && a.locale in KeysOf(supported)
  {
    CompileEach(KeysOf(supported), LocaleCacheDir(distDir), compile)
  }

  /** When every locale compiles, each is compiled once, in key order, and
      the stage returns normally. */
  lemma {:induction false} AllLocalesCompiled(locales: seq<Key>, cacheDir: string, compile: Key -> LocaleOutcome)
    requires forall j :: 0 <= j < |locales| ==> compile(locales[j]) == Compiled
    ensures CompileEach(locales, cacheDir, compile) == StageResult(LocaleCalls(locales, cacheDir), Completed)
    decreases locales
  {
    if locales != [] {
      AllLocalesCompiled(locales[1..], cacheDir, compile);
      assert LocaleCalls(locales, cacheDir) == [CompileLocale(locales[0], cacheDir)] + LocaleCalls(locales[1..], cacheDir);
    }
  }

  /** When locale `i` is the first that fails, locales 0..i were attempted
      and no later one; a compiler exception is logged and exits with code
      1, any other exception propagates unlogged. */
  lemma {:induction false} FirstFailingLocale(locales: seq<Key>, cacheDir: string, compile: Key -> LocaleOutcome, i: nat)
    requires i < |locales| && compile(locales[i]) != Compiled
    requires forall j :: 0 <= j < i ==> compile(locales[j]) == Compiled
    ensures var r := CompileEach(locales, cacheDir, compile);
            match compile(locales[i])
            case CompilerException(m) =>
              r == StageResult(LocaleCalls(locales[..i + 1], cacheDir) + [LogError(m)], Exited(1))
            case OtherException(m) =>
              r == StageResult(LocaleCalls(locales[..i + 1], cacheDir), Threw(m))
            case Compiled => false
    decreases i
  {
    var call := CompileLocale(locales[0], cacheDir);
    if i > 0 {
      FirstFailingLocale(locales[1..], cacheDir, compile, i - 1);
      assert locales[1..][..i] == locales[..i + 1][1..];
      assert LocaleCalls(locales[..i + 1], cacheDir) == [call] + LocaleCalls(locales[1..][..i], cacheDir);
    } else {
      assert LocaleCalls(locales[..1], cacheDir) == [call];
    }
  }

  /** The stage returns normally exactly when every supported locale
      compiles; it exits with code 1 exactly when the first failing locale
      raised a compiler exception. */
  lemma LocalesOutcomeIff(supported: seq<Entry>, distDir: string, compile: Key -> LocaleOutcome)
    ensures var ks := KeysOf(supported);
            var r := CompileLocales(supported, distDir, compile);
            && (r.outcome == Completed <==> forall j :: 0 <= j < |ks| ==> compile(ks[j]) == Compiled)
            && (r.outcome == Exited(1) <==>
                  exists i :: 0 <= i < |ks| && compile(ks[i]).CompilerException?
                              && forall j :: 0 <= j < i ==> compile(ks[j]) == Compiled)
  {
    var ks := KeysOf(supported);
    var cacheDir := LocaleCacheDir(distDir);
    if forall j :: 0 <= j < |ks| ==> compile(ks[j]) == Compiled {
      AllLocalesCompiled(ks, cacheDir, compile);
    } else {
      var i := FirstFailure(ks, compile);
      FirstFailingLocale(ks, cacheDir, compile, i);
      if !compile(ks[i]).CompilerException? {
        forall i' | 0 <= i' < |ks| && compile(ks[i']).CompilerException?
          ensures exists j :: 0 <= j < i' && compile(ks[j]) != Compiled
        {
          if i < i' {
            assert compile(ks[i]) != Compiled;
          }
        }
      }
    }
  }

  /** The position of the first locale that does not compile, when there is one. */
  function FirstFailure(ks: seq<Key>, compile: Key -> LocaleOutcome): (i: nat)
    requires exists j :: 0 <= j < |ks| && compile(ks[j]) != Compiled
    ensures i < |ks| && compile(ks[i]) != Compiled
    ensures forall j :: 0 <= j < i ==> compile(ks[j]) == Compiled
  {
    if compile(ks[0]) != Compiled then 0
    else
      var j :| 0 <= j < |ks| && compile(ks[j]) != Compiled;
      assert compile(ks[1..][j - 1]) != Compiled;
      1 + FirstFailure(ks[1..], compile)
  }
}
