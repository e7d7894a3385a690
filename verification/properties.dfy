/**
 Properties of `compile_py_files` that relate several steps: the
 short-circuit staleness rule, what happens to an up-to-date, a missing or
 a foreign-magic object, error propagation, the redirect naming rule for
 plain modules and package initializers, and passthrough of a table of
 contents without modules.
 */
module CompileProps {
  import opened PyStrings
  import opened PyPath
  import opened FileSystem
  import opened CompilePy

  /** An up-to-date object is emitted as it is: the compiler is not called
      and the file system is left alone. */
  lemma UpToDateNotRecompiled(env: Env, fs: Tree, e: Entry, v: Variant)
    requires e.typ == PyModule
    requires var d := DerivePaths(env, fs, e.path); UpToDate(fs, d.src, d.obj, env.magic)
    ensures var r := ResolveEntry(env, fs, e, v);
      && r == Resolved(e.(path := DerivePaths(env, fs, e.path).obj), fs, r.trace)
      && forall a :: a in r.trace ==> !a.Compile? && !a.MakeDirs?
  {
    var d := DerivePaths(env, fs, e.path);
    var c := StaleTest(env, fs, d.src, d.obj);
    assert c.verdict == Current;
  }

  /** An object no older than its source but with a foreign magic number is
      still handed to the compiler, in place. */
  lemma ForeignMagicRecompiled(env: Env, fs: Tree, e: Entry, v: Variant)
    requires e.typ == PyModule
    requires var d := DerivePaths(env, fs, e.path);
      && d.obj in fs && fs[d.obj].File?
      && MTime(fs, d.src) <= fs[d.obj].mtime
      && !(env.magic <= fs[d.obj].data)
    ensures var d := DerivePaths(env, fs, e.path);
      Compile(d.src, d.obj) in ResolveEntry(env, fs, e, v).trace
  {
    var d := DerivePaths(env, fs, e.path);
    assert StaleTest(env, fs, d.src, d.obj).verdict == Stale;
    StaleCompiles(env, fs, e, v);
  }

  /** A stale object is handed to the compiler in place. */
  lemma StaleCompiles(env: Env, fs: Tree, e: Entry, v: Variant)
    requires e.typ == PyModule
    requires var d := DerivePaths(env, fs, e.path); StaleTest(env, fs, d.src, d.obj).verdict == Stale
    ensures var d := DerivePaths(env, fs, e.path);
      Compile(d.src, d.obj) in ResolveEntry(env, fs, e, v).trace
  {
    var d := DerivePaths(env, fs, e.path);
    var t := d.trace + StaleTest(env, fs, d.src, d.obj).trace;
    var r0 := CompileStale(env, fs, e, d.src, d.obj, v);
    StaleUnfolds(env, fs, e, v);
    AfterKeeps(t, r0);
    assert ResolveEntry(env, fs, e, v).trace[|t|] == r0.trace[0];
  }

  /** A missing object (`mtime` 0) is compiled when the source has a
      positive modification time; when the source's is 0 as well the
      `open` of the object raises. */
  lemma MissingObject(env: Env, fs: Tree, e: Entry, v: Variant)
    requires e.typ == PyModule
    requires DerivePaths(env, fs, e.path).obj !in fs
    ensures var d := DerivePaths(env, fs, e.path);
      var r := ResolveEntry(env, fs, e, v);
      if MTime(fs, d.src) > 0 then Compile(d.src, d.obj) in r.trace
      else r == Raised(ReadFailed(d.obj), fs, r.trace)
  {
    var d := DerivePaths(env, fs, e.path);
    var c := StaleTest(env, fs, d.src, d.obj);
    if MTime(fs, d.src) > 0 {
      assert c.verdict == Stale;
      StaleCompiles(env, fs, e, v);
    } else {
      assert c.verdict == Unreadable;
    }
  }

  /** A stale object that compiles in place is emitted under its own path,
      now carrying the magic number and the clock's time stamp; it is up to
      date when no file is newer than the clock. */
  lemma InPlaceCompileEmitsObject(env: Env, fs: Tree, e: Entry, v: Variant)
    requires e.typ == PyModule
    requires var d := DerivePaths(env, fs, e.path);
      && !UpToDate(fs, d.src, d.obj, env.magic)
      && StaleTest(env, fs, d.src, d.obj).verdict != Unreadable
      && env.compiler(d.src, d.obj).Compiled?
    ensures var d := DerivePaths(env, fs, e.path);
      var r := ResolveEntry(env, fs, e, v);
      && r.Resolved? && r.entry == e.(path := d.obj)
      && r.fs == Emit(env, fs, d.obj, env.compiler(d.src, d.obj).code)
      && (ClockAhead(fs, env.now) ==> UpToDate(r.fs, d.src, d.obj, env.magic))
  {
    var d := DerivePaths(env, fs, e.path);
    var r := ResolveEntry(env, fs, e, v);
    var data := env.magic + env.compiler(d.src, d.obj).code;
    assert r.fs[d.obj] == File(env.now, data);
    assert data[..4] == env.magic;
    if ClockAhead(fs, env.now) {
      assert MTime(r.fs, d.src) <= env.now by {
        if d.src != d.obj && d.src in fs {
          assert r.fs[d.src] == fs[d.src];
        }
      }
    }
  }

  /** A compiler failure other than IOError in the in-place attempt
      propagates, and nothing is redirected. */
  lemma OtherErrorPropagates(env: Env, fs: Tree, e: Entry, v: Variant)
    requires e.typ == PyModule
    requires var d := DerivePaths(env, fs, e.path);
      && StaleTest(env, fs, d.src, d.obj).verdict == Stale
      && env.compiler(d.src, d.obj) == OtherError
    ensures var d := DerivePaths(env, fs, e.path);
      var r := ResolveEntry(env, fs, e, v);
      && r == Raised(CompileFailed(d.src, d.obj, OtherError), fs, r.trace)
      && forall a :: a in r.trace ==> !a.MakeDirs? && (a.Compile? ==> a == Compile(d.src, d.obj))
  {
  }

  /** The cache root never ends in a separator. */
  lemma BasePathPlain(workpath: string)
    ensures PlainDir(BasePath(workpath))
  {
    var b := BasePath(workpath);
    assert EndsWith(b, CacheDirName);
    assert b[|b| - 1] == CacheDirName[|CacheDirName| - 1];
  }

  /** A dotted module name whose segments are non-empty and free of `/`. */
  predicate PlainName(segs: seq<string>) {
    && |segs| >= 1
    && forall k :: 0 <= k < |segs| ==> PlainSegment(segs[k]) && '.' !in segs[k]
  }

  /** The redirected object of a plain module (no "__init__" in its object
      path) named `a.b.c`: `<cache>/a/b/c<ext>`, in directory `<cache>/a/b`. */
  lemma RedirectLeaf(env: Env, segs: seq<string>, obj: string)
    requires PlainName(segs) && !Contains(obj, InitName)
    ensures var nm := JoinWith(segs, '.'); var base := BasePath(env.workpath);
      && RedirectDir(env, nm, obj) == base + SlashPath(segs[..|segs| - 1])
      && RedirectObject(env, nm, obj) == base + SlashPath(segs) + Ext(obj)
  {
    var nm := JoinWith(segs, '.');
    var base := BasePath(env.workpath);
    SplitJoin(segs, '.');
    var leading := segs[..|segs| - 1];
    var last := segs[|segs| - 1];
    LastSplit(segs);
    assert RedirectParts(nm, obj) == (leading, last);
    assert forall k :: 0 <= k < |leading| ==> leading[k] == segs[k];
    BasePathPlain(env.workpath);
    JoinAllPlain(base, leading);
    var dir := RedirectDir(env, nm, obj);
    assert dir == base + SlashPath(leading);
    var ext := Ext(obj);
    FinalJoin(dir, last, ext);
    SlashPathSnoc(leading, last);
    calc {
      RedirectObject(env, nm, obj);
      Join(dir, last + ext);
      dir + "/" + last + ext;
      (((base + SlashPath(leading)) + "/") + last) + ext;
      { SeqAssoc(base, SlashPath(leading), "/"); }
      ((base + (SlashPath(leading) + "/")) + last) + ext;
      { SeqAssoc(base, SlashPath(leading) + "/", last); }
      (base + ((SlashPath(leading) + "/") + last)) + ext;
      { assert SlashPath(segs) == (SlashPath(leading) + "/") + last; }
      base + SlashPath(segs) + ext;
    }
  }

  /** The redirected object of a package initializer (some "__init__" in
      its object path) named `a.b`: `<cache>/a/b/__init__<ext>`, in
      directory `<cache>/a/b`. */
  lemma RedirectInit(env: Env, segs: seq<string>, obj: string)
    requires PlainName(segs) && Contains(obj, InitName)
    ensures var nm := JoinWith(segs, '.'); var base := BasePath(env.workpath);
      && RedirectDir(env, nm, obj) == base + SlashPath(segs)
      && RedirectObject(env, nm, obj) == base + SlashPath(segs) + "/" + InitName + Ext(obj)
  {
    var nm := JoinWith(segs, '.');
    InitParts(segs, obj);
    assert AllPlain(segs);
    PlainCacheDir(env.workpath, segs);
    InitObjectJoin(env, nm, obj);
  }

  /** The initializer's file name joined onto its cache directory. */
  lemma InitObjectJoin(env: Env, nm: string, obj: string)
    requires RedirectParts(nm, obj).1 == InitName
    requires PlainDir(RedirectDir(env, nm, obj))
    ensures RedirectObject(env, nm, obj) == RedirectDir(env, nm, obj) + "/" + InitName + Ext(obj)
  {
    InitNamePlain();
    FinalJoin(RedirectDir(env, nm, obj), InitName, Ext(obj));
  }

  lemma InitNamePlain()
    ensures PlainSegment(InitName)
  {
    assert forall k :: 0 <= k < |InitName| ==> InitName[k] != '/';
  }

  /** A package initializer's parts: every segment, and "__init__". */
  lemma InitParts(segs: seq<string>, obj: string)
    requires PlainName(segs) && Contains(obj, InitName)
    ensures RedirectParts(JoinWith(segs, '.'), obj) == (segs, InitName)
  {
    SplitJoin(segs, '.');
  }

  /** The cache directory of plain segments. */
  lemma PlainCacheDir(workpath: string, segs: seq<string>)
    requires AllPlain(segs)
    ensures JoinAll(BasePath(workpath), segs) == BasePath(workpath) + SlashPath(segs)
    ensures PlainDir(JoinAll(BasePath(workpath), segs))
  {
    BasePathPlain(workpath);
    JoinAllPlain(BasePath(workpath), segs);
  }

  lemma LastSplit<T>(xs: seq<T>)
    requires |xs| >= 1
    ensures xs[..|xs| - 1] + [xs[|xs| - 1]] == xs
  {
  }

  /** The file name with its extension is joined under one `/`. */
  lemma FinalJoin(dir: string, name: string, ext: string)
    requires PlainDir(dir) && PlainSegment(name)
    requires '/' !in ext
    ensures Join(dir, name + ext) == dir + "/" + name + ext
  {
    assert (name + ext)[0] == name[0];
    assert name[0] != '/' by { assert name[0] in name; }
    assert !EndsWith(dir, "/") by { assert dir[|dir| - 1..] == [dir[|dir| - 1]]; }
  }

  lemma {:induction false} SlashPathSnoc(segs: seq<string>, last: string)
    ensures SlashPath(segs + [last]) == SlashPath(segs) + "/" + last
    decreases |segs|
  {
    if |segs| == 0 {
      assert SlashPath([last]) == "/" + last + SlashPath([]);
    } else {
      assert (segs + [last])[1..] == segs[1..] + [last];
      SlashPathSnoc(segs[1..], last);
    }
  }

  /** A table of contents without `PYMODULE` entries comes back unchanged,
      with no query made and the file system untouched. */
  lemma {:induction false} NoModulesUnchanged(env: Env, fs: Tree, toc: seq<Entry>, v: Variant)
    requires forall i :: 0 <= i < |toc| ==> toc[i].typ != PyModule
    ensures Run(env, fs, toc, v) == Finished(toc, fs, [])
    decreases |toc|
  {
    if |toc| > 0 {
      NoModulesUnchanged(env, fs, toc[1..], v);
      assert [toc[0]] + toc[1..] == toc;
    }
  }
}
