/**
 `compile_py_files` (PyInstaller/utils/misc.py:171-263): for every
 `PYMODULE` entry of a table of contents, find the compiled object file next
 to the source, recompile it when it is older than the source or was written
 by another interpreter, and, when the compiler cannot write there, compile
 into the build directory's `localpycos` cache instead and point the entry
 at that copy. Entries of any other type pass through untouched.

 The interpreter is abstracted into an environment: the optimize flag, the
 four-byte magic number, the clock that stamps written files, the outcome
 of `py_compile.compile` for a (source, destination) pair and whether
 `os.makedirs` succeeds for a path. Every step also records the file-system
 queries and effects it performs, so that "nothing was done" can be stated.
 */
module CompilePy {
  import opened PyStrings
  import opened PyPath
  import opened FileSystem

  /** The type tag of the entries that are examined. */
  const PyModule: string := "PYMODULE"

  /** The module name that marks a package initializer. */
  const InitName: string := "__init__"

  /** The cache directory created below the work path. */
  const CacheDirName: string := "localpycos"

  /** One table-of-contents tuple `(nm, fnm, typ)`. */
  datatype Entry = Entry(name: string, path: string, typ: string)

  /** `imp.get_magic()`: always four bytes. */
  type Magic = m: seq<byte> | |m| == 4 witness [0, 0, 0, 0]

  /** What one call of `py_compile.compile(src, dst)` does. */
  datatype CompileOutcome =
    | Compiled(code: seq<byte>)   // writes `magic + code` at `dst`
    | IOError                     // raises IOError (e.g. `dst` not writable)
    | OtherError                  // raises anything else

  datatype Env = Env(
    optimize: bool,                                   // truth of `sys.flags.optimize`
    magic: Magic,                                     // `imp.get_magic()`
    workpath: string,
    now: nat,                                         // time stamp of every file written
    compiler: (string, string) -> CompileOutcome,     // `py_compile.compile`
    canMakeDirs: string -> bool)                      // whether `os.makedirs` succeeds

  /** File-system queries and effects, in the order they happen. */
  datatype Action =
    | Probe(path: string)                  // os.path.exists
    | Stat(path: string)                   // mtime
    | Read(path: string)                   // open(...).read()
    | Compile(src: string, dst: string)    // py_compile.compile
    | MakeDirs(path: string)               // os.makedirs

  /** The exceptions that escape `compile_py_files`. */
  datatype Error =
    | ReadFailed(path: string)
    | CompileFailed(src: string, dst: string, cause: CompileOutcome)
    | MakeDirsFailed(path: string)

  /** The result of resolving one entry: the entry to append, or the
      exception raised; either way the file system as it is left. */
  datatype Outcome =
    | Resolved(entry: Entry, fs: Tree, trace: seq<Action>)
    | Raised(error: Error, fs: Tree, trace: seq<Action>)

  /** The result of the whole loop. */
  datatype RunResult =
    | Finished(toc: seq<Entry>, fs: Tree, trace: seq<Action>)
    | Aborted(error: Error, fs: Tree, trace: seq<Action>)

  /** Which destination the compile after a redirect writes: the code uses
      the entry's original path (misc.py:258); the corrected variant uses the
      redirected object path it then emits. */
  datatype Variant = AsWritten | Corrected

  /** The object-file letter tried first, and the one tried when that file
      is absent. */
  function PreferredLetter(optimize: bool): char {
    if optimize then 'o' else 'c'
  }

  function FallbackLetter(optimize: bool): char {
    if optimize then 'c' else 'o'
  }

  /** A source and an object path derived from an entry's path, with the
      existence probe made on the way. */
  datatype Derived = Derived(src: string, obj: string, trace: seq<Action>)

  /** misc.py:198-209. A `.py` path is the source, and the object is that
      path plus the preferred letter when such a file exists, otherwise plus
      the other letter. Any other path is the object, and the source is it
      without its last character. In both cases dropping the object's last
      character gives the source. */
  function DerivePaths(env: Env, fs: Tree, fnm: string): (d: Derived)
    ensures DropLast(d.obj) == d.src
    ensures EndsWith(fnm, ".py") ==>
      var preferred := fnm + [PreferredLetter(env.optimize)];
      && d.src == fnm
      && d.trace == [Probe(preferred)]
      && (d.obj == preferred <==> Exists(fs, preferred))
      && (d.obj == preferred || d.obj == fnm + [FallbackLetter(env.optimize)])
    ensures !EndsWith(fnm, ".py") ==> d.obj == fnm && d.trace == []
  {
    if EndsWith(fnm, ".py") then
      var preferred := fnm + [PreferredLetter(env.optimize)];
      var obj := if Exists(fs, preferred) then preferred else fnm + [FallbackLetter(env.optimize)];
      assert obj[..|obj| - 1] == fnm;
      Derived(fnm, obj, [Probe(preferred)])
    else
      Derived(DropLast(fnm), fnm, [])
  }

  /** The object at `obj` is a file no older than `src` and begins with the
      interpreter's magic number. */
  predicate UpToDate(fs: Tree, src: string, obj: string, magic: Magic) {
    obj in fs && fs[obj].File? && MTime(fs, src) <= fs[obj].mtime && magic <= fs[obj].data
  }

  datatype Verdict = Stale | Current | Unreadable

  datatype Check = Check(verdict: Verdict, trace: seq<Action>)

  /** misc.py:218-221 (and 253-255). The object needs compiling when the
      source's mtime exceeds the object's, or else when the object's first
      four bytes are not the magic number; the object is read only when the
      mtime comparison did not already decide, and a failing read is an
      error. Nothing but `stat` and the read is performed. */
  function StaleTest(env: Env, fs: Tree, src: string, obj: string): (c: Check)
    ensures c.verdict == Current <==> UpToDate(fs, src, obj, env.magic)
    ensures c.verdict == Unreadable <==> MTime(fs, src) <= MTime(fs, obj) && !(obj in fs && fs[obj].File?)
    ensures Read(obj) in c.trace <==> MTime(fs, src) <= MTime(fs, obj)
    ensures forall a :: a in c.trace ==> a.Stat? || a.Read?
  {
    var t := [Stat(src), Stat(obj)];
    if MTime(fs, src) > MTime(fs, obj) then Check(Stale, t)
    else
      match ReadHead(fs, obj, 4)
      case None => Check(Unreadable, t + [Read(obj)])
      case Some(head) =>
        assert head == env.magic <==> env.magic <= fs[obj].data;
        Check(if head != env.magic then Stale else Current, t + [Read(obj)])
  }

  /** `os.path.join(workpath, "localpycos")` (misc.py:188): the cache root
      lies below the work path and is named "localpycos". */
  function BasePath(workpath: string): (base: string)
    ensures |workpath| <= |base| && base[..|workpath|] == workpath
    ensures EndsWith(base, CacheDirName)
    ensures PlainDir(workpath) ==> base == workpath + "/" + CacheDirName
    ensures (workpath == "" || EndsWith(workpath, "/")) ==> base == workpath + CacheDirName
  {
    assert PlainSegment(CacheDirName);
    if PlainDir(workpath) then
      JoinPlainStep(workpath, CacheDirName);
      Join(workpath, CacheDirName)
    else Join(workpath, CacheDirName)
  }

  /** misc.py:237-244: the directories below the cache and the module's
      file name. When "__init__" does not occur anywhere in the object path
      the module name's last segment is the file name and the rest are
      directories; otherwise every segment is a directory and the file name
      is "__init__". */
  function RedirectParts(nm: string, obj: string): (parts: (seq<string>, string))
    ensures
      var segs := Split(nm, '.');
      if Contains(obj, InitName) then parts.0 == segs && parts.1 == InitName
      else parts.0 + [parts.1] == segs
  {
    var segs := Split(nm, '.');
    if !Contains(obj, InitName) then
      assert segs[..|segs| - 1] + [segs[|segs| - 1]] == segs;
      (segs[..|segs| - 1], segs[|segs| - 1])
    else (segs, InitName)
  }

  /** misc.py:246: the cache directory the object is redirected into. It
      ends with the last directory segment, and lies below the cache root
      unless a segment of the module name is absolute. */
  function RedirectDir(env: Env, nm: string, obj: string): (dir: string)
    ensures var segs := RedirectParts(nm, obj).0;
      && (|segs| > 0 ==> EndsWith(dir, segs[|segs| - 1]))
      && (NoneAbsolute(segs) ==> var base := BasePath(env.workpath);
            |base| <= |dir| && dir[..|base|] == base)
    ensures |RedirectParts(nm, obj).0| == 0 ==> dir == BasePath(env.workpath)
  {
    JoinAll(BasePath(env.workpath), RedirectParts(nm, obj).0)
  }

  /** misc.py:235, 251: the redirected object path, which keeps the
      extension of the original object path. */
  function RedirectObject(env: Env, nm: string, obj: string): (red: string)
    ensures EndsWith(red, Ext(obj))
  {
    var ext := Ext(obj);
    var red := Join(RedirectDir(env, nm, obj), RedirectParts(nm, obj).1 + ext);
    assert EndsWith(RedirectParts(nm, obj).1 + ext, ext);
    red
  }

  /** Every directory the trace creates was absent from `fs`. */
  predicate OnlyNewDirs(fs: Tree, t: seq<Action>) {
    forall a :: a in t && a.MakeDirs? ==> !Exists(fs, a.path)
  }

  /** The file system after a successful compile into `dst`. */
  function Emit(env: Env, fs: Tree, dst: string, code: seq<byte>): Tree {
    WriteFile(fs, dst, env.now, env.magic + code)
  }

  /** The actions `t` taken before the step that produced `r`. */
  function After(t: seq<Action>, r: Outcome): Outcome {
    match r
    case Resolved(x, fs, t2) => Resolved(x, fs, t + t2)
    case Raised(err, fs, t2) => Raised(err, fs, t + t2)
  }

  /** The destination of the compile after a redirect: the entry's own path
      as the code is written (misc.py:258), the redirected object when
      corrected. */
  function RedirectDest(e: Entry, red: string, v: Variant): (dst: string)
    ensures v == Corrected ==> dst == red
    ensures v == AsWritten ==> dst == e.path
    ensures v == AsWritten && e.path != red ==> dst != red
  {
    if v == AsWritten then e.path else red
  }

  /** misc.py:251-259: the staleness test repeated on the redirected object
      `red`, the compile it may call for, and `red` emitted. No directory is
      created here. */
  function Recheck(env: Env, fs: Tree, e: Entry, src: string, red: string, v: Variant): (r: Outcome)
    ensures fs.Keys <= r.fs.Keys
    ensures forall a :: a in r.trace ==> !a.MakeDirs?
    ensures r.Resolved? ==> r.entry == e.(path := red)
  {
    var c := StaleTest(env, fs, src, red);
    match c.verdict
    case Unreadable => Raised(ReadFailed(red), fs, c.trace)
    case Current => Resolved(e.(path := red), fs, c.trace)
    case Stale =>
      var dst := RedirectDest(e, red, v);
      var out := env.compiler(src, dst);
      var t := c.trace + [Compile(src, dst)];
      match out
      case Compiled(code) => Resolved(e.(path := red), Emit(env, fs, dst, code), t)
      case _ => Raised(CompileFailed(src, dst, out), fs, t)
  }

  /** misc.py:230-259: after the in-place compile raised IOError, the cache
      directory is created when absent (a failing `makedirs` propagates),
      then the redirected object is re-tested and emitted. */
  function Redirect(env: Env, fs: Tree, e: Entry, src: string, obj: string, v: Variant): (r: Outcome)
    ensures fs.Keys <= r.fs.Keys
    ensures OnlyNewDirs(fs, r.trace)
    ensures r.Resolved? ==> r.entry == e.(path := RedirectObject(env, e.name, obj))
  {
    RedirectInto(env, fs, e, src, RedirectDir(env, e.name, obj), RedirectObject(env, e.name, obj), v)
  }

  /** The redirect into directory `leading` and object `red`. */
  function RedirectInto(env: Env, fs: Tree, e: Entry, src: string, leading: string, red: string, v: Variant): (r: Outcome)
    ensures fs.Keys <= r.fs.Keys
    ensures OnlyNewDirs(fs, r.trace)
    ensures r.Resolved? ==> r.entry == e.(path := red)
  {
    if Exists(fs, leading) then
      After([Probe(leading)], Recheck(env, fs, e, src, red, v))
    else if !env.canMakeDirs(leading) then
      Raised(MakeDirsFailed(leading), fs, [Probe(leading), MakeDirs(leading)])
    else
      After([Probe(leading), MakeDirs(leading)], Recheck(env, MakeDir(fs, leading, env.now), e, src, red, v))
  }

  /** misc.py:222-259: the compile of a stale object in place, and the
      redirect when it raises IOError. The compile is the first action. */
  function CompileStale(env: Env, fs: Tree, e: Entry, src: string, obj: string, v: Variant): (r: Outcome)
    ensures fs.Keys <= r.fs.Keys
    ensures OnlyNewDirs(fs, r.trace)
    ensures r.Resolved? ==> r.entry.name == e.name && r.entry.typ == e.typ
    ensures |r.trace| > 0 && r.trace[0] == Compile(src, obj)
  {
    var out := env.compiler(src, obj);
    match out
    case Compiled(code) => Resolved(e.(path := obj), Emit(env, fs, obj, code), [Compile(src, obj)])
    case OtherError => Raised(CompileFailed(src, obj, out), fs, [Compile(src, obj)])
    case IOError => After([Compile(src, obj)], Redirect(env, fs, e, src, obj, v))
  }

  /** misc.py:198-261 for one `PYMODULE` entry. */
  function ResolveModule(env: Env, fs: Tree, e: Entry, v: Variant): (r: Outcome)
    ensures fs.Keys <= r.fs.Keys
    ensures OnlyNewDirs(fs, r.trace)
    ensures r.Resolved? ==> r.entry.name == e.name && r.entry.typ == e.typ
  {
    var d := DerivePaths(env, fs, e.path);
    var c := StaleTest(env, fs, d.src, d.obj);
    var t := d.trace + c.trace;
    match c.verdict
    case Unreadable => Raised(ReadFailed(d.obj), fs, t)
    case Current => Resolved(e.(path := d.obj), fs, t)
    case Stale => After(t, CompileStale(env, fs, e, d.src, d.obj, v))
  }

  /** Prepending actions keeps the outcome and the file system. */
  lemma AfterKeeps(t: seq<Action>, r: Outcome)
    ensures After(t, r).fs == r.fs && After(t, r).trace == t + r.trace
    ensures After(t, r).Resolved? == r.Resolved?
    ensures r.Resolved? ==> After(t, r).entry == r.entry
    ensures r.Raised? ==> After(t, r).error == r.error
  {
  }

  lemma AfterAfter(t1: seq<Action>, t2: seq<Action>, r: Outcome)
    ensures After(t1, After(t2, r)) == After(t1 + t2, r)
  {
    assert t1 + (t2 + r.trace) == (t1 + t2) + r.trace;
  }

  /** A stale module entry resolves as its in-place compile does, after
      the probe, `stat` and read actions of the staleness test. */
  lemma StaleUnfolds(env: Env, fs: Tree, e: Entry, v: Variant)
    requires e.typ == PyModule
    requires var d := DerivePaths(env, fs, e.path); StaleTest(env, fs, d.src, d.obj).verdict == Stale
    ensures var d := DerivePaths(env, fs, e.path);
      ResolveEntry(env, fs, e, v)
        == After(d.trace + StaleTest(env, fs, d.src, d.obj).trace, CompileStale(env, fs, e, d.src, d.obj, v))
  {
  }

  /** An in-place compile that raises IOError continues with the redirect. */
  lemma CompileStaleIOError(env: Env, fs: Tree, e: Entry, src: string, obj: string, v: Variant)
    requires env.compiler(src, obj) == IOError
    ensures CompileStale(env, fs, e, src, obj, v)
         == After([Compile(src, obj)],
                  RedirectInto(env, fs, e, src, RedirectDir(env, e.name, obj), RedirectObject(env, e.name, obj), v))
  {
  }

  /** One iteration of the loop body (misc.py:192-261): entries whose type
      is not `PYMODULE` are appended as they are, with no query made and the
      file system untouched; a resolved entry keeps its name and type; no
      path is ever removed; a directory is only created where nothing was. */
  function ResolveEntry(env: Env, fs: Tree, e: Entry, v: Variant): (r: Outcome)
    ensures e.typ != PyModule ==> r == Resolved(e, fs, [])
    ensures r.Resolved? ==> r.entry.name == e.name && r.entry.typ == e.typ
    ensures fs.Keys <= r.fs.Keys
    ensures OnlyNewDirs(fs, r.trace)
  {
    if e.typ != PyModule then Resolved(e, fs, []) else ResolveModule(env, fs, e, v)
  }

  /** The loop of misc.py:191-263 as a fold: the output has the input's
      length and order, each entry keeps its name and type, other-typed
      entries are copied verbatim, no path is removed, and only a `PYMODULE`
      entry can raise. */
  function Run(env: Env, fs: Tree, toc: seq<Entry>, v: Variant): (r: RunResult)
    ensures r.Finished? ==> |r.toc| == |toc|
    ensures r.Finished? ==> forall i :: 0 <= i < |toc| ==>
      r.toc[i].name == toc[i].name && r.toc[i].typ == toc[i].typ &&
      (toc[i].typ != PyModule ==> r.toc[i] == toc[i])
    ensures fs.Keys <= r.fs.Keys
    ensures r.Aborted? ==> exists i :: 0 <= i < |toc| && toc[i].typ == PyModule
    decreases |toc|
  {
    if |toc| == 0 then Finished([], fs, [])
    else
      match ResolveEntry(env, fs, toc[0], v)
      case Raised(err, fs1, t1) => Aborted(err, fs1, t1)
      case Resolved(x, fs1, t1) =>
        var rest := Run(env, fs1, toc[1..], v);
        assert forall i :: 1 <= i < |toc| ==> toc[1..][i - 1] == toc[i];
        Prepend([x], t1, rest)
  }

  /** One step of the fold. */
  lemma RunCons(env: Env, fs: Tree, toc: seq<Entry>, v: Variant)
    requires |toc| > 0
    ensures Run(env, fs, toc, v) ==
      match ResolveEntry(env, fs, toc[0], v)
      case Raised(err, fs1, t1) => Aborted(err, fs1, t1)
      case Resolved(x, fs1, t1) => Prepend([x], t1, Run(env, fs1, toc[1..], v))
  {
  }

  /** One iteration of `CompilePyFiles` keeps it in step with the fold:
      a raised entry aborts with the actions so far, a resolved one is
      appended. */
  lemma RunStep(env: Env, fs: Tree, toc: seq<Entry>, v: Variant,
                done: seq<Entry>, t: seq<Action>, cur: Tree, rest: seq<Entry>)
    requires |rest| > 0
    requires Run(env, fs, toc, v) == Prepend(done, t, Run(env, cur, rest, v))
    ensures match ResolveEntry(env, cur, rest[0], v)
      case Raised(err, fs1, t1) => Run(env, fs, toc, v) == Aborted(err, fs1, t + t1)
      case Resolved(x, fs1, t1) =>
        Run(env, fs, toc, v) == Prepend(done + [x], t + t1, Run(env, fs1, rest[1..], v))
  {
    RunCons(env, cur, rest, v);
    match ResolveEntry(env, cur, rest[0], v) {
      case Raised(err, fs1, t1) =>
      case Resolved(x, fs1, t1) =>
        PrependPrepend(done, t, [x], t1, Run(env, fs1, rest[1..], v));
    }
  }

  /** Entries already appended and actions already taken, put in front of
      the result of the remaining iterations. */
  function Prepend(done: seq<Entry>, t: seq<Action>, r: RunResult): RunResult {
    match r
    case Finished(rest, fs, t2) => Finished(done + rest, fs, t + t2)
    case Aborted(err, fs, t2) => Aborted(err, fs, t + t2)
  }

  lemma PrependPrepend(d1: seq<Entry>, t1: seq<Action>, d2: seq<Entry>, t2: seq<Action>, r: RunResult)
    ensures Prepend(d1, t1, Prepend(d2, t2, r)) == Prepend(d1 + d2, t1 + t2, r)
  {
    match r {
      case Finished(rest, fs, t3) =>
        assert d1 + (d2 + rest) == (d1 + d2) + rest;
        assert t1 + (t2 + t3) == (t1 + t2) + t3;
      case Aborted(err, fs, t3) =>
        assert t1 + (t2 + t3) == (t1 + t2) + t3;
    }
  }

  /** `compile_py_files(toc, workpath)` as the loop it is: appends one
      entry per iteration and stops at the first exception; it computes the
      same result as the fold `Run`. */
  method CompilePyFiles(env: Env, fs: Tree, toc: seq<Entry>, v: Variant) returns (r: RunResult)
    ensures r == Run(env, fs, toc, v)
  {
    var newToc: seq<Entry> := [];
    var cur := fs;
    var trace: seq<Action> := [];
    var rest := toc;
    while |rest| > 0
      invariant Run(env, fs, toc, v) == Prepend(newToc, trace, Run(env, cur, rest, v))
    {
      var step := ResolveEntry(env, cur, rest[0], v);
      RunStep(env, fs, toc, v, newToc, trace, cur, rest);
      match step {
        case Raised(err, fs1, t1) =>
          return Aborted(err, fs1, trace + t1);
        case Resolved(x, fs1, t1) =>
          newToc, cur, trace, rest := newToc + [x], fs1, trace + t1, rest[1..];
      }
    }
    assert newToc + [] == newToc && trace + [] == trace;
    r := Finished(newToc, cur, trace);
  }
}
