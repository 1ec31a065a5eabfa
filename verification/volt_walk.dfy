/** The recursive template walk `compileVoltDir`
    (app/phalcon/modules/cli/tasks/BuildTask.php:187-208).

    A directory is the sequence of entries `readdir` returns, in that order;
    an entry that `is_dir` reports as a directory carries its own entries.
    Whether compiling a path returns normally or throws is an input
    (`compiles`). The walk catches nothing, so the first compile that throws
    ends it. */
module VoltWalk {
  import opened Outcomes

  datatype DirEntry = FileEntry(name: string) | DirNode(name: string, entries: seq<DirEntry>)

  /** The two entries `readdir` returns that the walk must not follow. */
  predicate Skipped(name: string)
  {
    name == "." || name == ".."
  }

  /** The paths handed to the compiler, in call order, and whether the last
      of those calls threw. */
  datatype Walk = Walk(attempted: seq<string>, threw: bool)

  /** `compileVoltDir(path)`: "." and ".." are skipped, a directory is
      walked as `path . name . "/"` before the next entry is read, and any
      other entry is compiled as `path . name`. */
  function CompileVoltDir(path: string, es: seq<DirEntry>, compiles: string -> bool): (w: Walk)
    ensures w.threw ==> |w.attempted| > 0 && !compiles(w.attempted[|w.attempted| - 1])
    decreases es
  {
    if es == [] then Walk([], false)
    else if Skipped(es[0].name) then CompileVoltDir(path, es[1..], compiles)
    else match es[0]
      case FileEntry(n) =>
        if !compiles(path + n) then Walk([path + n], true)
        else Then([path + n], CompileVoltDir(path, es[1..], compiles))
      case DirNode(n, cs) =>
        var inner := CompileVoltDir(path + n + "/", cs, compiles);
        if inner.threw then inner
        else Then(inner.attempted, CompileVoltDir(path, es[1..], compiles))
  }

  /** Calls that returned normally, followed by a further walk. */
  function Then(done: seq<string>, rest: Walk): Walk
  {
    Walk(done + rest.attempted, rest.threw)
  }

  /** Every template file below `path`, depth first, in `readdir` order:
      the calls a walk makes when no compile throws. */
  function TemplateFiles(path: string, es: seq<DirEntry>): seq<string>
    decreases es
  {
    if es == [] then []
    else if Skipped(es[0].name) then TemplateFiles(path, es[1..])
    else match es[0]
      case FileEntry(n) => [path + n] + TemplateFiles(path, es[1..])
      case DirNode(n, cs) => TemplateFiles(path + n + "/", cs) + TemplateFiles(path, es[1..])
  }

  /** `rel` is the path, relative to the directory holding `es`, of a file
      in that tree: a file's own name, or a directory's name, "/", and a
      path inside that directory. "." and ".." lead nowhere. */
  ghost predicate Reaches(es: seq<DirEntry>, rel: string)
    decreases es
  {
    if es == [] then false
    else if Skipped(es[0].name) then Reaches(es[1..], rel)
    else match es[0]
      case FileEntry(n) => rel == n || Reaches(es[1..], rel)
      case DirNode(n, cs) =>
        || (|rel| > |n| && rel[..|n| + 1] == n + "/" && Reaches(cs, rel[|n| + 1..]))
        || Reaches(es[1..], rel)
  }

  /** A name as a directory entry can have it: no '/'. */
  predicate PlainName(n: string)
  {
    forall k :: 0 <= k < |n| ==> n[k] != '/'
  }

  /** A tree as a filesystem can hold it: within a directory names are
      unique and contain no '/'. */
  ghost predicate WellFormedTree(es: seq<DirEntry>)
    decreases es
  {
    && (forall i, j :: 0 <= i < j < |es| ==> es[i].name != es[j].name)
    && (forall i :: 0 <= i < |es| ==> PlainName(es[i].name))
    && (es != [] ==> match es[0] case DirNode(_, cs) => WellFormedTree(cs) case FileEntry(_) => true)
    && (es != [] ==> WellFormedTree(es[1..]))
  }

  // ---------------------------------------------------------------------
  // The walk against the list of files

  /** `w` compiled a prefix of `files` in order; every call but possibly the
      last returned normally; the walk stopped early exactly when its last
      call threw, and otherwise it compiled all of `files`. */
  predicate StopsAtFirstFailure(w: Walk, files: seq<string>, compiles: string -> bool)
  {
    && w.attempted <= files
    && (w.threw ==> |w.attempted| > 0 && !compiles(w.attempted[|w.attempted| - 1]))
    && (forall i :: 0 <= i < |w.attempted| - 1 ==> compiles(w.attempted[i]))
    && (!w.threw ==> w.attempted == files && forall i :: 0 <= i < |files| ==> compiles(files[i]))
  }

  lemma {:induction false} StopsAfterThrow(w: Walk, files: seq<string>, more: seq<string>, compiles: string -> bool)
    requires StopsAtFirstFailure(w, files, compiles)
    requires w.threw
    ensures StopsAtFirstFailure(w, files + more, compiles)
  {
    assert (files + more)[..|w.attempted|] == files[..|w.attempted|];
  }

  lemma {:induction false} StopsAfterSuccess(done: seq<string>, rest: Walk, more: seq<string>, compiles: string -> bool)
    requires forall i :: 0 <= i < |done| ==> compiles(done[i])
    requires StopsAtFirstFailure(rest, more, compiles)
    ensures StopsAtFirstFailure(Then(done, rest), done + more, compiles)
  {
    var w := Then(done, rest);
    assert (done + more)[..|w.attempted|] == done + more[..|rest.attempted|];
    forall i | 0 <= i < |w.attempted| - 1
      ensures compiles(w.attempted[i])
    {
      if i >= |done| {
        assert w.attempted[i] == rest.attempted[i - |done|];
      }
    }
    if !w.threw {
      forall i | 0 <= i < |done + more|
        ensures compiles((done + more)[i])
      {
        if i >= |done| {
          assert (done + more)[i] == more[i - |done|];
        }
      }
    }
  }

  /** The walk compiles the files of the tree in depth-first `readdir`
      order and stops at the first compile that throws. */
  lemma {:induction false} WalkStopsAtFirstFailure(path: string, es: seq<DirEntry>, compiles: string -> bool)
    ensures StopsAtFirstFailure(CompileVoltDir(path, es, compiles), TemplateFiles(path, es), compiles)
    decreases es
  {
    if es != [] {
      var rest := CompileVoltDir(path, es[1..], compiles);
      var more := TemplateFiles(path, es[1..]);
      WalkStopsAtFirstFailure(path, es[1..], compiles);
      if !Skipped(es[0].name) {
        match es[0]
        case FileEntry(n) =>
          if compiles(path + n) {
            StopsAfterSuccess([path + n], rest, more, compiles);
          } else {
            StopsAfterThrow(Walk([path + n], true), [path + n], more, compiles);
          }
        case DirNode(n, cs) =>
          var inner := CompileVoltDir(path + n + "/", cs, compiles);
          var files := TemplateFiles(path + n + "/", cs);
          WalkStopsAtFirstFailure(path + n + "/", cs, compiles);
          if inner.threw {
            StopsAfterThrow(inner, files, more, compiles);
          } else {
            StopsAfterSuccess(inner.attempted, rest, more, compiles);
          }
      }
    }
  }

  /** When every file compiles, each one is compiled, in depth-first
      `readdir` order, and the walk returns normally. */
  lemma WalkCompilesEveryFile(path: string, es: seq<DirEntry>, compiles: string -> bool)
    requires forall p :: p in TemplateFiles(path, es) ==> compiles(p)
    ensures CompileVoltDir(path, es, compiles) == Walk(TemplateFiles(path, es), false)
  {
    WalkStopsAtFirstFailure(path, es, compiles);
  }

  /** The walk throws exactly when some file below `path` fails to compile. */
  lemma WalkThrowsIffSomeFileFails(path: string, es: seq<DirEntry>, compiles: string -> bool)
    ensures CompileVoltDir(path, es, compiles).threw <==> exists p :: p in TemplateFiles(path, es) && !compiles(p)
  {
    WalkStopsAtFirstFailure(path, es, compiles);
  }

  // ---------------------------------------------------------------------
  // Which files: coverage

  /** `p` is `path` followed by `rest`. */
  lemma {:induction false} SplitAt(path: string, rest: string, p: string)
    ensures p == path + rest <==> |p| >= |path| && p[..|path|] == path && p[|path|..] == rest
  {
    if |p| >= |path| && p[..|path|] == path && p[|path|..] == rest {
      assert p == p[..|path|] + p[|path|..];
    }
  }

  /** `p` starts with `path + seg` exactly when the part of `p` after `path`
      starts with `seg`; what follows is the same either way. */
  lemma {:induction false} SplitPrefix(path: string, seg: string, p: string)
    ensures (|p| >= |path + seg| && p[..|path + seg|] == path + seg)
            <==> (|p| >= |path| && p[..|path|] == path && |p[|path|..]| >= |seg| && p[|path|..][..|seg|] == seg)
    ensures |p| >= |path + seg| ==> p[|path + seg|..] == p[|path|..][|seg|..]
  {
    if |p| >= |path + seg| && p[..|path + seg|] == path + seg {
      assert p[..|path|] == (path + seg)[..|path|] == path;
      assert p[|path|..][..|seg|] == p[..|path + seg|][|path|..] == seg;
    }
    if |p| >= |path| && p[..|path|] == path && |p[|path|..]| >= |seg| && p[|path|..][..|seg|] == seg {
      assert p[..|path + seg|] == p[..|path|] + p[|path|..][..|seg|];
    }
  }

  /** The compiled paths are exactly `path` followed by the relative path of
      a file in the tree: files at every depth, directories entered with a
      trailing "/", "." and ".." never followed. */
  lemma {:induction false} TemplateFilesCoverage(path: string, es: seq<DirEntry>, p: string)
    ensures p in TemplateFiles(path, es)
            <==> |p| >= |path| && p[..|path|] == path && Reaches(es, p[|path|..])
    decreases es
  {
    if es != [] {
      TemplateFilesCoverage(path, es[1..], p);
      if !Skipped(es[0].name) {
        match es[0]
        case FileEntry(n) =>
          SplitAt(path, n, p);
        case DirNode(n, cs) =>
          TemplateFilesCoverage(path + n + "/", cs, p);
          assert path + n + "/" == path + (n + "/");
          SplitPrefix(path, n + "/", p);
      }
    }
  }

  // ---------------------------------------------------------------------
  // Exactly once: no path is compiled twice

  /** `rel` starts with the entry name `n`: it is `n` itself or continues
      with "/". */
  predicate HeadSegment(rel: string, n: string)
  {
    rel == n || (|rel| > |n| && rel[..|n| + 1] == n + "/")
  }

  /** The first segment of a relative path: everything before its first "/". */
  function FirstSegment(rel: string): (seg: string)
    ensures PlainName(seg) && |seg| <= |rel| && seg == rel[..|seg|]
  {
    if rel == [] || rel[0] == '/' then [] else [rel[0]] + FirstSegment(rel[1..])
  }

  /** A name without '/' that starts `rel` as a segment is its first segment. */
  lemma {:induction false} HeadSegmentIsFirst(rel: string, n: string)
    requires PlainName(n) && HeadSegment(rel, n)
    ensures n == FirstSegment(rel)
    decreases n
  {
    if n != [] {
      assert rel[0] == n[0];
      assert HeadSegment(rel[1..], n[1..]) by {
        if rel != n {
          assert rel[1..][..|n[1..]| + 1] == rel[..|n| + 1][1..];
          assert (n + "/")[1..] == n[1..] + "/";
        }
      }
      HeadSegmentIsFirst(rel[1..], n[1..]);
      assert n == [n[0]] + n[1..];
    }
  }

  /** Two names without '/' that both start `rel` as a segment are equal. */
  lemma HeadSegmentUnique(rel: string, n1: string, n2: string)
    requires PlainName(n1) && PlainName(n2)
    requires HeadSegment(rel, n1) && HeadSegment(rel, n2)
    ensures n1 == n2
  {
    HeadSegmentIsFirst(rel, n1);
    HeadSegmentIsFirst(rel, n2);
  }

  lemma {:induction false} ReachesSomeEntry(es: seq<DirEntry>, rel: string)
    requires Reaches(es, rel)
    ensures exists j :: 0 <= j < |es| && HeadSegment(rel, es[j].name)
    decreases es
  {
    if !(!Skipped(es[0].name) && HeadSegment(rel, es[0].name)) {
      assert Reaches(es[1..], rel);
      ReachesSomeEntry(es[1..], rel);
      var j :| 0 <= j < |es[1..]| && HeadSegment(rel, es[1..][j].name);
      assert es[j + 1] == es[1..][j];
    }
  }

  lemma {:induction false} DistinctConcat<T>(a: seq<T>, b: seq<T>)
    requires Distinct(a) && Distinct(b)
    requires forall x :: x in a ==> x !in b
    ensures Distinct(a + b)
  {
    forall i, j | 0 <= i < j < |a + b|
      ensures (a + b)[i] != (a + b)[j]
    {
      if i < |a| && j >= |a| {
        assert (a + b)[i] in a;
        assert (a + b)[j] == b[j - |a|];
      }
    }
  }

  /** The paths a non-skipped entry contributes all start with `path`
      followed by the entry's name as a whole segment. */
  lemma {:induction false} HeadFilesUnderName(path: string, e: DirEntry, p: string)
    requires e.FileEntry? ==> p == path + e.name
    requires e.DirNode? ==> p in TemplateFiles(path + e.name + "/", e.entries)
    ensures |p| >= |path| && p[..|path|] == path && HeadSegment(p[|path|..], e.name)
  {
    match e
    case FileEntry(n) =>
      SplitAt(path, n, p);
    case DirNode(n, cs) =>
      TemplateFilesCoverage(path + n + "/", cs, p);
      assert path + n + "/" == path + (n + "/");
      SplitPrefix(path, n + "/", p);
  }

  /** A path that a later entry contributes cannot also come from an entry
      with another name. */
  lemma {:induction false} TailFilesElsewhere(path: string, es: seq<DirEntry>, p: string)
    requires es != []
    requires WellFormedTree(es)
    requires |p| >= |path| && p[..|path|] == path && HeadSegment(p[|path|..], es[0].name)
    ensures p !in TemplateFiles(path, es[1..])
  {
    TemplateFilesCoverage(path, es[1..], p);
    if Reaches(es[1..], p[|path|..]) {
      ReachesSomeEntry(es[1..], p[|path|..]);
      var j :| 0 <= j < |es[1..]| && HeadSegment(p[|path|..], es[1..][j].name);
      assert es[1..][j] == es[j + 1];
      HeadSegmentUnique(p[|path|..], es[0].name, es[j + 1].name);
      assert false;
    }
  }

  /** In a well-formed tree the walk reaches every file along one path only,
      so no path is handed to the compiler twice. */
  lemma {:induction false} TemplateFilesDistinct(path: string, es: seq<DirEntry>)
    requires WellFormedTree(es)
    ensures Distinct(TemplateFiles(path, es))
    decreases es
  {
    if es != [] {
      var tail := TemplateFiles(path, es[1..]);
      TemplateFilesDistinct(path, es[1..]);
      if !Skipped(es[0].name) {
        var n := es[0].name;
        var head := if es[0].FileEntry? then [path + n] else TemplateFiles(path + n + "/", es[0].entries);
        if es[0].DirNode? {
          TemplateFilesDistinct(path + n + "/", es[0].entries);
        }
        forall p | p in head
          ensures p !in tail
        {
          HeadFilesUnderName(path, es[0], p);
          TailFilesElsewhere(path, es, p);
        }
        DistinctConcat(head, tail);
      }
    }
  }

  /** Every file of a well-formed tree is compiled exactly once when no
      compile throws. */
  lemma EachFileCompiledOnce(path: string, es: seq<DirEntry>, compiles: string -> bool, p: string)
    requires WellFormedTree(es)
    requires forall q :: q in TemplateFiles(path, es) ==> compiles(q)
    requires |p| >= |path| && p[..|path|] == path && Reaches(es, p[|path|..])
    ensures var calls := CompileVoltDir(path, es, compiles).attempted;
            exists i :: 0 <= i < |calls| && calls[i] == p && forall j :: 0 <= j < |calls| && calls[j] == p ==> j == i
  {
    var files := TemplateFiles(path, es);
    WalkCompilesEveryFile(path, es, compiles);
    assert CompileVoltDir(path, es, compiles).attempted == files;
    TemplateFilesCoverage(path, es, p);
    TemplateFilesDistinct(path, es);
    var i :| 0 <= i < |files| && files[i] == p;
    assert forall j :: 0 <= j < |files| && files[j] == p ==> j == i;
  }
}
