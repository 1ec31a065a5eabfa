/** `compileVoltTemplates` and `compileVoltTemplateForModule`
    (app/phalcon/modules/cli/tasks/BuildTask.php:129-182).

    The stage points the template cache directory at the dist tree, walks
    the admin and web module views inside one try/catch, then walks the
    simple views and the common partials outside it, and finally puts the
    cache directory back. There is no `finally`: an exception from the last
    two walks leaves the cache directory redirected. */
module VoltTemplates {
  import opened Outcomes
  import opened Effects
  import opened DistPaths
  import opened VoltWalk

  /** The four template trees: where each lives and what it holds. The views
      directory of a module is what its view service reports. */
  datatype Views = Views(
    adminDir: string, admin: seq<DirEntry>,
    webDir: string, web: seq<DirEntry>,
    simpleDir: string, simple: seq<DirEntry>,
    commonDir: string, partials: seq<DirEntry>)

  /** The partials are walked below the common views directory. */
  function PartialsDir(v: Views): string
  {
    v.commonDir + "partials/"
  }

  /** What the stage did, how it ended, and the value `voltCacheDir` holds
      afterwards. */
  datatype TemplatesResult = TemplatesResult(actions: seq<Action>, outcome: Outcome, voltCacheDir: string)

  /** The compile calls of one walk, each made with the cache directory in
      force at the time. */
  function Compilations(root: ViewRoot, paths: seq<string>, cacheDir: string): (acts: seq<Action>)
    ensures |acts| == |paths|
    ensures forall i :: 0 <= i < |acts| ==> acts[i] == CompileTemplate(root, paths[i], cacheDir)
  {
    seq(|paths|, i requires 0 <= i < |paths| => CompileTemplate(root, paths[i], cacheDir))
  }

  /** The path whose compile ended a walk that threw. */
  function FailedPath(w: Walk): string
    requires |w.attempted| > 0
  {
    w.attempted[|w.attempted| - 1]
  }

  /** The two module walks inside their try/catch: admin first, web only if
      admin returned normally; the first exception is logged and swallowed. */
  function ModuleTemplates(v: Views, cacheDir: string, compiles: string -> bool, errorOf: string -> string): (acts: seq<Action>)
    ensures forall a :: a in acts && a.CompileTemplate? ==> a.voltCacheDir == cacheDir
  {
    var admin := CompileVoltDir(v.adminDir, v.admin, compiles);
    if admin.threw then
      Compilations(AdminViews, admin.attempted, cacheDir) + [LogError(errorOf(FailedPath(admin)))]
    else
      var web := CompileVoltDir(v.webDir, v.web, compiles);
      Compilations(AdminViews, admin.attempted, cacheDir) + Compilations(WebViews, web.attempted, cacheDir)
        + (if web.threw then [LogError(errorOf(FailedPath(web)))] else [])
  }

  /** `compileVoltTemplates`. `voltCacheDir` is the configured cache
      directory on entry; `compiles` says which compiles return normally and
      `errorOf` gives the message of the exception a failing compile throws. */
  function CompileVoltTemplates(v: Views, distDir: string, voltCacheDir: string,
                                compiles: string -> bool, errorOf: string -> string): (r: TemplatesResult)
    ensures forall a :: a in r.actions && a.CompileTemplate? ==> a.voltCacheDir == VoltCacheDirFor(distDir)
    ensures r.outcome == Completed || r.outcome.Threw?
    ensures r.outcome == Completed ==> r.voltCacheDir == voltCacheDir
    ensures r.outcome.Threw? ==> r.voltCacheDir == VoltCacheDirFor(distDir)
  {
    var cacheDir := VoltCacheDirFor(distDir);
    var modules := ModuleTemplates(v, cacheDir, compiles, errorOf);
    var simple := CompileVoltDir(v.simpleDir, v.simple, compiles);
    var upToSimple := modules + Compilations(SimpleViews, simple.attempted, cacheDir);
    if simple.threw then
      TemplatesResult(upToSimple, Threw(errorOf(FailedPath(simple))), cacheDir)
    else
      var partials := CompileVoltDir(PartialsDir(v), v.partials, compiles);
      var all := upToSimple + Compilations(CommonPartials, partials.attempted, cacheDir);
      if partials.threw then
        TemplatesResult(all, Threw(errorOf(FailedPath(partials))), cacheDir)
      else
        TemplatesResult(all, Completed, voltCacheDir)
  }

  // ---------------------------------------------------------------------
  // Reading actions back

  /** The messages passed to `error_log`, in order. */
  function Logged(acts: seq<Action>): seq<string>
    decreases acts
  {
    if acts == [] then []
    else if acts[0].LogError? then [acts[0].message] + Logged(acts[1..])
    else Logged(acts[1..])
  }

  /** The paths compiled for one template tree, in order. */
  function CompiledFor(root: ViewRoot, acts: seq<Action>): seq<string>
    decreases acts
  {
    if acts == [] then []
    else if acts[0].CompileTemplate? && acts[0].root == root then [acts[0].path] + CompiledFor(root, acts[1..])
    else CompiledFor(root, acts[1..])
  }

  lemma {:induction false} LoggedConcat(a: seq<Action>, b: seq<Action>)
    ensures Logged(a + b) == Logged(a) + Logged(b)
    decreases a
  {
    if a == [] {
      assert a + b == b;
    } else {
      assert (a + b)[1..] == a[1..] + b;
      LoggedConcat(a[1..], b);
    }
  }

  lemma {:induction false} CompiledForConcat(root: ViewRoot, a: seq<Action>, b: seq<Action>)
    ensures CompiledFor(root, a + b) == CompiledFor(root, a) + CompiledFor(root, b)
    decreases a
  {
    if a == [] {
      assert a + b == b;
    } else {
      assert (a + b)[1..] == a[1..] + b;
      CompiledForConcat(root, a[1..], b);
    }
  }

  /** A run of compile calls logs nothing and, read back by tree, gives its
      paths for its own tree and nothing for the others. */
  lemma {:induction false} CompilationsReadBack(root: ViewRoot, other: ViewRoot, paths: seq<string>, cacheDir: string)
    ensures Logged(Compilations(root, paths, cacheDir)) == []
    ensures CompiledFor(other, Compilations(root, paths, cacheDir)) == if other == root then paths else []
    decreases paths
  {
    if paths != [] {
      var acts := Compilations(root, paths, cacheDir);
      assert acts[1..] == Compilations(root, paths[1..], cacheDir);
      CompilationsReadBack(root, other, paths[1..], cacheDir);
      if other == root {
        assert paths == [paths[0]] + paths[1..];
      }
    }
  }

  /** A single log line read back. */
  lemma LogLineReadBack(root: ViewRoot, message: string)
    ensures Logged([LogError(message)]) == [message]
    ensures CompiledFor(root, [LogError(message)]) == []
  {
  }

  // ---------------------------------------------------------------------
  // The module try/catch

  /** When the admin walk throws, the failure is logged exactly once, with
      the message of the failing compile, and the web views are never
      compiled; the admin files before the failing one were compiled. */
  lemma {:induction false} AdminFailureSkipsWeb(v: Views, cacheDir: string, compiles: string -> bool, errorOf: string -> string)
    requires CompileVoltDir(v.adminDir, v.admin, compiles).threw
    ensures var admin := CompileVoltDir(v.adminDir, v.admin, compiles);
            var acts := ModuleTemplates(v, cacheDir, compiles, errorOf);
            && Logged(acts) == [errorOf(FailedPath(admin))]
            && CompiledFor(WebViews, acts) == []
            && CompiledFor(AdminViews, acts) == admin.attempted
            && admin.attempted <= TemplateFiles(v.adminDir, v.admin)
  {
    var admin := CompileVoltDir(v.adminDir, v.admin, compiles);
    var c := Compilations(AdminViews, admin.attempted, cacheDir);
    var log := [LogError(errorOf(FailedPath(admin)))];
    LoggedConcat(c, log);
    CompiledForConcat(WebViews, c, log);
    CompiledForConcat(AdminViews, c, log);
    CompilationsReadBack(AdminViews, WebViews, admin.attempted, cacheDir);
    CompilationsReadBack(AdminViews, AdminViews, admin.attempted, cacheDir);
    LogLineReadBack(WebViews, errorOf(FailedPath(admin)));
    LogLineReadBack(AdminViews, errorOf(FailedPath(admin)));
    WalkStopsAtFirstFailure(v.adminDir, v.admin, compiles);
  }

  /** When the admin walk returns normally, the web views are walked after
      it, and at most the web failure is logged. */
  lemma {:induction false} WebAfterAdmin(v: Views, cacheDir: string, compiles: string -> bool, errorOf: string -> string)
    requires !CompileVoltDir(v.adminDir, v.admin, compiles).threw
    ensures var web := CompileVoltDir(v.webDir, v.web, compiles);
            var acts := ModuleTemplates(v, cacheDir, compiles, errorOf);
            && CompiledFor(AdminViews, acts) == TemplateFiles(v.adminDir, v.admin)
            && CompiledFor(WebViews, acts) == web.attempted
            && Logged(acts) == if web.threw then [errorOf(FailedPath(web))] else []
  {
    var admin := CompileVoltDir(v.adminDir, v.admin, compiles);
    var web := CompileVoltDir(v.webDir, v.web, compiles);
    var log: seq<Action> := if web.threw then [LogError(errorOf(FailedPath(web)))] else [];
    WalkStopsAtFirstFailure(v.adminDir, v.admin, compiles);
    assert ModuleTemplates(v, cacheDir, compiles, errorOf)
        == Compilations(AdminViews, admin.attempted, cacheDir) + Compilations(WebViews, web.attempted, cacheDir) + log;
    ModuleSegments(admin.attempted, web.attempted, log, cacheDir, SimpleViews);
  }

  /** Admin compiles, then web compiles, then at most one log line, read
      back by tree and by log; `other` is any tree but the two modules. */
  lemma {:induction false} ModuleSegments(adminPaths: seq<string>, webPaths: seq<string>, log: seq<Action>, cacheDir: string,
                                          other: ViewRoot)
    requires log == [] || (|log| == 1 && log[0].LogError?)
    requires other != AdminViews && other != WebViews
    ensures var acts := Compilations(AdminViews, adminPaths, cacheDir) + Compilations(WebViews, webPaths, cacheDir) + log;
            && CompiledFor(AdminViews, acts) == adminPaths
            && CompiledFor(WebViews, acts) == webPaths
            && CompiledFor(other, acts) == []
            && Logged(acts) == if log == [] then [] else [log[0].message]
  {
    var ca := Compilations(AdminViews, adminPaths, cacheDir);
    var cw := Compilations(WebViews, webPaths, cacheDir);
    LoggedConcat(ca, cw);
    LoggedConcat(ca + cw, log);
    CompilationsReadBack(AdminViews, AdminViews, adminPaths, cacheDir);
    CompilationsReadBack(WebViews, WebViews, webPaths, cacheDir);
    if log != [] {
      assert log == [LogError(log[0].message)];
      LogLineReadBack(AdminViews, log[0].message);
    }
    SegmentFor(AdminViews, adminPaths, webPaths, log, cacheDir);
    SegmentFor(WebViews, adminPaths, webPaths, log, cacheDir);
    SegmentFor(other, adminPaths, webPaths, log, cacheDir);
  }

  /** What one view root reads back from the admin walk, the web walk and
      an optional logged line, in that order. */
  lemma SegmentFor(root: ViewRoot, adminPaths: seq<string>, webPaths: seq<string>, log: seq<Action>, cacheDir: string)
    requires log == [] || (|log| == 1 && log[0].LogError?)
    ensures var acts := Compilations(AdminViews, adminPaths, cacheDir) + Compilations(WebViews, webPaths, cacheDir) + log;
            CompiledFor(root, acts) == (if root == AdminViews then adminPaths else []) + (if root == WebViews then webPaths else [])
  {
    var ca := Compilations(AdminViews, adminPaths, cacheDir);
    var cw := Compilations(WebViews, webPaths, cacheDir);
    CompilationsReadBack(AdminViews, root, adminPaths, cacheDir);
    CompilationsReadBack(WebViews, root, webPaths, cacheDir);
    CompiledForConcat(root, ca, cw);
    CompiledForConcat(root, ca + cw, log);
    if log != [] {
      assert log == [LogError(log[0].message)];
      LogLineReadBack(root, log[0].message);
    }
  }

  /** The module walks never let an exception out: whatever they do, the
      simple views are walked next. */
  lemma SimpleViewsAlwaysWalked(v: Views, distDir: string, voltCacheDir: string,
                                compiles: string -> bool, errorOf: string -> string)
    ensures var r := CompileVoltTemplates(v, distDir, voltCacheDir, compiles, errorOf);
            CompiledFor(SimpleViews, r.actions) == CompileVoltDir(v.simpleDir, v.simple, compiles).attempted
  {
    var cacheDir := VoltCacheDirFor(distDir);
    var r := CompileVoltTemplates(v, distDir, voltCacheDir, compiles, errorOf);
    var modules := ModuleTemplates(v, cacheDir, compiles, errorOf);
    var simple := CompileVoltDir(v.simpleDir, v.simple, compiles);
    var cs := Compilations(SimpleViews, simple.attempted, cacheDir);
    ModulesCompileOnlyModules(v, cacheDir, compiles, errorOf, SimpleViews);
    CompiledForConcat(SimpleViews, modules, cs);
    CompilationsReadBack(SimpleViews, SimpleViews, simple.attempted, cacheDir);
    if !simple.threw {
      var partials := CompileVoltDir(PartialsDir(v), v.partials, compiles);
      var cp := Compilations(CommonPartials, partials.attempted, cacheDir);
      CompiledForConcat(SimpleViews, modules + cs, cp);
      CompilationsReadBack(CommonPartials, SimpleViews, partials.attempted, cacheDir);
    }
  }

  /** The same promise for the whole stage: when the admin walk throws, the
      stage logs exactly that one message and compiles no web view, however
      the simple views and the partials turn out. */
  lemma {:induction false} AdminFailureSkipsWebInStage(v: Views, distDir: string, voltCacheDir: string,
                                                       compiles: string -> bool, errorOf: string -> string)
    requires CompileVoltDir(v.adminDir, v.admin, compiles).threw
    ensures var admin := CompileVoltDir(v.adminDir, v.admin, compiles);
            var r := CompileVoltTemplates(v, distDir, voltCacheDir, compiles, errorOf);
            && Logged(r.actions) == [errorOf(FailedPath(admin))]
            && CompiledFor(WebViews, r.actions) == []
  {
    var cacheDir := VoltCacheDirFor(distDir);
    var modules := ModuleTemplates(v, cacheDir, compiles, errorOf);
    AdminFailureSkipsWeb(v, cacheDir, compiles, errorOf);
    AfterModules(v, distDir, voltCacheDir, compiles, errorOf);
    var tail := SimpleThenPartials(v, cacheDir, compiles);
    QuietAfterModules(v, cacheDir, compiles);
    LoggedConcat(modules, tail);
    CompiledForConcat(WebViews, modules, tail);
  }

  /** What the stage compiles after the module walks: the simple views
      and, unless they throw, the common partials. */
  function SimpleThenPartials(v: Views, cacheDir: string, compiles: string -> bool): seq<Action>
  {
    var simple := CompileVoltDir(v.simpleDir, v.simple, compiles);
    Compilations(SimpleViews, simple.attempted, cacheDir)
    + if simple.threw then [] else Compilations(CommonPartials, CompileVoltDir(PartialsDir(v), v.partials, compiles).attempted, cacheDir)
  }

  lemma AfterModules(v: Views, distDir: string, voltCacheDir: string, compiles: string -> bool, errorOf: string -> string)
    ensures var cacheDir := VoltCacheDirFor(distDir);
            CompileVoltTemplates(v, distDir, voltCacheDir, compiles, errorOf).actions
            == ModuleTemplates(v, cacheDir, compiles, errorOf) + SimpleThenPartials(v, cacheDir, compiles)
  {
    var simple := CompileVoltDir(v.simpleDir, v.simple, compiles);
    if simple.threw {
      var cs := Compilations(SimpleViews, simple.attempted, VoltCacheDirFor(distDir));
      assert cs + [] == cs;
    }
  }

  /** After the module walks nothing is logged and no web view compiled. */
  lemma QuietAfterModules(v: Views, cacheDir: string, compiles: string -> bool)
    ensures Logged(SimpleThenPartials(v, cacheDir, compiles)) == []
    ensures CompiledFor(WebViews, SimpleThenPartials(v, cacheDir, compiles)) == []
  {
    var simple := CompileVoltDir(v.simpleDir, v.simple, compiles);
    var cs := Compilations(SimpleViews, simple.attempted, cacheDir);
    var cp := if simple.threw then [] else Compilations(CommonPartials, CompileVoltDir(PartialsDir(v), v.partials, compiles).attempted, cacheDir);
    CompilationsReadBack(SimpleViews, WebViews, simple.attempted, cacheDir);
    if !simple.threw {
      CompilationsReadBack(CommonPartials, WebViews, CompileVoltDir(PartialsDir(v), v.partials, compiles).attempted, cacheDir);
    }
    LoggedConcat(cs, cp);
    CompiledForConcat(WebViews, cs, cp);
  }

  /** An exception from the simple views is not caught: the stage ends
      with it, nothing after the simple walk happens, no common partial is
      compiled, and the cache directory stays redirected. */
  lemma {:induction false} SimpleFailureEndsStage(v: Views, distDir: string, voltCacheDir: string,
                                                  compiles: string -> bool, errorOf: string -> string)
    requires CompileVoltDir(v.simpleDir, v.simple, compiles).threw
    ensures var simple := CompileVoltDir(v.simpleDir, v.simple, compiles);
            var cacheDir := VoltCacheDirFor(distDir);
            var r := CompileVoltTemplates(v, distDir, voltCacheDir, compiles, errorOf);
            && r.outcome == Threw(errorOf(FailedPath(simple)))
            && r.actions == ModuleTemplates(v, cacheDir, compiles, errorOf) + Compilations(SimpleViews, simple.attempted, cacheDir)
            && CompiledFor(CommonPartials, r.actions) == []
            && r.voltCacheDir == cacheDir
  {
    var cacheDir := VoltCacheDirFor(distDir);
    var modules := ModuleTemplates(v, cacheDir, compiles, errorOf);
    var simple := CompileVoltDir(v.simpleDir, v.simple, compiles);
    var cs := Compilations(SimpleViews, simple.attempted, cacheDir);
    ModulesCompileOnlyModules(v, cacheDir, compiles, errorOf, CommonPartials);
    CompiledForConcat(CommonPartials, modules, cs);
    CompilationsReadBack(SimpleViews, CommonPartials, simple.attempted, cacheDir);
  }

  /** The module walks compile nothing from the simple views or the
      partials. */
  lemma {:induction false} ModulesCompileOnlyModules(v: Views, cacheDir: string, compiles: string -> bool,
                                                     errorOf: string -> string, other: ViewRoot)
    requires other != AdminViews && other != WebViews
    ensures CompiledFor(other, ModuleTemplates(v, cacheDir, compiles, errorOf)) == []
  {
    var admin := CompileVoltDir(v.adminDir, v.admin, compiles);
    if admin.threw {
      var log := [LogError(errorOf(FailedPath(admin)))];
      assert ModuleTemplates(v, cacheDir, compiles, errorOf)
          == Compilations(AdminViews, admin.attempted, cacheDir) + Compilations(WebViews, [], cacheDir) + log;
      ModuleSegments(admin.attempted, [], log, cacheDir, other);
    } else {
      var web := CompileVoltDir(v.webDir, v.web, compiles);
      var log: seq<Action> := if web.threw then [LogError(errorOf(FailedPath(web)))] else [];
      assert ModuleTemplates(v, cacheDir, compiles, errorOf)
          == Compilations(AdminViews, admin.attempted, cacheDir) + Compilations(WebViews, web.attempted, cacheDir) + log;
      ModuleSegments(admin.attempted, web.attempted, log, cacheDir, other);
    }
  }

  // ---------------------------------------------------------------------
  // How the stage ends

  /** The stage returns normally exactly when every simple view and every
      common partial compiles; failures in the module views never decide it. */
  lemma TemplatesCompleteIff(v: Views, distDir: string, voltCacheDir: string,
                             compiles: string -> bool, errorOf: string -> string)
    ensures CompileVoltTemplates(v, distDir, voltCacheDir, compiles, errorOf).outcome == Completed
            <==> (forall p :: p in TemplateFiles(v.simpleDir, v.simple) ==> compiles(p))
                 && (forall p :: p in TemplateFiles(PartialsDir(v), v.partials) ==> compiles(p))
  {
    WalkThrowsIffSomeFileFails(v.simpleDir, v.simple, compiles);
    WalkThrowsIffSomeFileFails(PartialsDir(v), v.partials, compiles);
  }

  /** A failing compile in a walk that threw is one of the walk's files. */
  lemma FailedPathIsTemplate(path: string, es: seq<DirEntry>, compiles: string -> bool)
    requires CompileVoltDir(path, es, compiles).threw
    ensures var w := CompileVoltDir(path, es, compiles);
            FailedPath(w) in TemplateFiles(path, es) && !compiles(FailedPath(w))
  {
    var w := CompileVoltDir(path, es, compiles);
    WalkStopsAtFirstFailure(path, es, compiles);
    assert FailedPath(w) == TemplateFiles(path, es)[|w.attempted| - 1];
  }

  /** When the stage throws, the exception is that of a simple view or a
      common partial that failed to compile, and `voltCacheDir` is left
      pointing into the dist tree. */
  lemma TemplatesThrowComesFromSimpleOrPartials(v: Views, distDir: string, voltCacheDir: string,
                                                compiles: string -> bool, errorOf: string -> string)
    ensures var r := CompileVoltTemplates(v, distDir, voltCacheDir, compiles, errorOf);
            r.outcome.Threw? ==>
              && r.voltCacheDir == VoltCacheDirFor(distDir)
              && exists q :: (q in TemplateFiles(v.simpleDir, v.simple) || q in TemplateFiles(PartialsDir(v), v.partials))
                             && !compiles(q) && r.outcome == Threw(errorOf(q))
  {
    var simple := CompileVoltDir(v.simpleDir, v.simple, compiles);
    var partials := CompileVoltDir(PartialsDir(v), v.partials, compiles);
    if simple.threw {
      FailedPathIsTemplate(v.simpleDir, v.simple, compiles);
      var q := FailedPath(simple);
      assert q in TemplateFiles(v.simpleDir, v.simple);
    } else if partials.threw {
      FailedPathIsTemplate(PartialsDir(v), v.partials, compiles);
      var q := FailedPath(partials);
      assert q in TemplateFiles(PartialsDir(v), v.partials);
    }
  }

  /** When nothing fails, all four trees are compiled in full, in the order
      admin, web, simple, partials, into the dist cache directory; nothing
      is logged and `voltCacheDir` is back to its value on entry. */
  lemma TemplatesFullRun(v: Views, distDir: string, voltCacheDir: string,
                         compiles: string -> bool, errorOf: string -> string)
    requires forall p :: p in TemplateFiles(v.adminDir, v.admin) ==> compiles(p)
    requires forall p :: p in TemplateFiles(v.webDir, v.web) ==> compiles(p)
    requires forall p :: p in TemplateFiles(v.simpleDir, v.simple) ==> compiles(p)
    requires forall p :: p in TemplateFiles(PartialsDir(v), v.partials) ==> compiles(p)
    ensures var cacheDir := VoltCacheDirFor(distDir);
            CompileVoltTemplates(v, distDir, voltCacheDir, compiles, errorOf)
            == TemplatesResult(Compilations(AdminViews, TemplateFiles(v.adminDir, v.admin), cacheDir)
                                 + Compilations(WebViews, TemplateFiles(v.webDir, v.web), cacheDir)
                                 + Compilations(SimpleViews, TemplateFiles(v.simpleDir, v.simple), cacheDir)
                                 + Compilations(CommonPartials, TemplateFiles(PartialsDir(v), v.partials), cacheDir),
                               Completed, voltCacheDir)
  {
    var cacheDir := VoltCacheDirFor(distDir);
    ModulesFullRun(v, cacheDir, compiles, errorOf);
    WalkCompilesEveryFile(v.simpleDir, v.simple, compiles);
    WalkCompilesEveryFile(PartialsDir(v), v.partials, compiles);
  }

  /** When no module view fails, both module trees are compiled in full,
      admin before web, and nothing is logged. */
  lemma ModulesFullRun(v: Views, cacheDir: string, compiles: string -> bool, errorOf: string -> string)
    requires forall p :: p in TemplateFiles(v.adminDir, v.admin) ==> compiles(p)
    requires forall p :: p in TemplateFiles(v.webDir, v.web) ==> compiles(p)
    ensures ModuleTemplates(v, cacheDir, compiles, errorOf)
            == Compilations(AdminViews, TemplateFiles(v.adminDir, v.admin), cacheDir)
               + Compilations(WebViews, TemplateFiles(v.webDir, v.web), cacheDir)
  {
    WalkCompilesEveryFile(v.adminDir, v.admin, compiles);
    WalkCompilesEveryFile(v.webDir, v.web, compiles);
  }

  // ---------------------------------------------------------------------
  // Order of the trees

  /** The position of each tree in the stage. */
  function Rank(root: ViewRoot): nat
  {
    match root
    case AdminViews => 0
    case WebViews => 1
    case SimpleViews => 2
    case CommonPartials => 3
  }

  /** Every compile call in `acts` is for a tree ranked between `lo` and `hi`. */
  predicate RootsWithin(acts: seq<Action>, lo: nat, hi: nat)
  {
    forall i :: 0 <= i < |acts| && acts[i].CompileTemplate? ==> lo <= Rank(acts[i].root) <= hi
  }

  /** The compile calls in `acts` never go back to an earlier tree. */
  predicate RootsInOrder(acts: seq<Action>)
  {
    forall i, j :: 0 <= i < j < |acts| && acts[i].CompileTemplate? && acts[j].CompileTemplate?
      ==> Rank(acts[i].root) <= Rank(acts[j].root)
  }

  lemma {:induction false} InOrderConcat(a: seq<Action>, b: seq<Action>, lo: nat, mid: nat, hi: nat)
    requires RootsInOrder(a) && RootsInOrder(b)
    requires lo <= mid <= hi
    requires RootsWithin(a, lo, mid) && RootsWithin(b, mid, hi)
    ensures RootsInOrder(a + b) && RootsWithin(a + b, lo, hi)
  {
    forall i, j | 0 <= i < j < |a + b| && (a + b)[i].CompileTemplate? && (a + b)[j].CompileTemplate?
      ensures Rank((a + b)[i].root) <= Rank((a + b)[j].root)
    {
      if j < |a| {
        assert (a + b)[i] == a[i] && (a + b)[j] == a[j];
      } else if i >= |a| {
        assert (a + b)[i] == b[i - |a|] && (a + b)[j] == b[j - |a|];
      } else {
        assert (a + b)[i] == a[i] && (a + b)[j] == b[j - |a|];
      }
    }
    forall i | 0 <= i < |a + b| && (a + b)[i].CompileTemplate?
      ensures lo <= Rank((a + b)[i].root) <= hi
    {
      if i < |a| {
        assert (a + b)[i] == a[i];
      } else {
        assert (a + b)[i] == b[i - |a|];
      }
    }
  }

  lemma CompilationsInOrder(root: ViewRoot, paths: seq<string>, cacheDir: string)
    ensures RootsInOrder(Compilations(root, paths, cacheDir))
    ensures RootsWithin(Compilations(root, paths, cacheDir), Rank(root), Rank(root))
  {
  }

  /** The stage compiles admin views, then web views, then simple views,
      then common partials, and never returns to an earlier tree. */
  lemma {:induction false} TemplatesRootsInOrder(v: Views, distDir: string, voltCacheDir: string,
                                                 compiles: string -> bool, errorOf: string -> string)
    ensures RootsInOrder(CompileVoltTemplates(v, distDir, voltCacheDir, compiles, errorOf).actions)
  {
    var cacheDir := VoltCacheDirFor(distDir);
    var admin := CompileVoltDir(v.adminDir, v.admin, compiles);
    var ca := Compilations(AdminViews, admin.attempted, cacheDir);
    CompilationsInOrder(AdminViews, admin.attempted, cacheDir);
    var modules := ModuleTemplates(v, cacheDir, compiles, errorOf);
    if admin.threw {
      InOrderConcat(ca, [LogError(errorOf(FailedPath(admin)))], 0, 0, 1);
    } else {
      var web := CompileVoltDir(v.webDir, v.web, compiles);
      var cw := Compilations(WebViews, web.attempted, cacheDir);
      CompilationsInOrder(WebViews, web.attempted, cacheDir);
      InOrderConcat(ca, cw, 0, 0, 1);
      var log: seq<Action> := if web.threw then [LogError(errorOf(FailedPath(web)))] else [];
      InOrderConcat(ca + cw, log, 0, 1, 1);
    }
    assert RootsInOrder(modules) && RootsWithin(modules, 0, 1);
    var simple := CompileVoltDir(v.simpleDir, v.simple, compiles);
    var cs := Compilations(SimpleViews, simple.attempted, cacheDir);
    CompilationsInOrder(SimpleViews, simple.attempted, cacheDir);
    InOrderConcat(modules, cs, 0, 1, 2);
    if !simple.threw {
      var partials := CompileVoltDir(PartialsDir(v), v.partials, compiles);
      var cp := Compilations(CommonPartials, partials.attempted, cacheDir);
      CompilationsInOrder(CommonPartials, partials.attempted, cacheDir);
      InOrderConcat(modules + cs, cp, 0, 2, 3);
    }
  }
}
