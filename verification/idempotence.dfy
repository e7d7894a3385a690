/**
 Resolving a module entry a second time, on the file system the first
 resolution left, gives the same entry and writes nothing, for the
 corrected redirect. This holds when the cache directory and the cached
 object are paths of their own, apart from the source, the object and the
 probed object path of the entry. The second run may still call the
 compiler: an in-place compile that raised IOError raises it again and is
 redirected again, this time to an up-to-date copy.
 */
module CorrectedIdempotence {
  import opened PyStrings
  import opened FileSystem
  import opened CompilePy
  import opened CompileProps
  import opened RedirectBranch

  /** `p` is absent from both trees, or present in both with one node. */
  predicate SameAt(fs: Tree, fs': Tree, p: string) {
    && (p in fs <==> p in fs')
    && (p in fs ==> fs[p] == fs'[p])
  }

  /** The object path `DerivePaths` probes for a `.py` entry. */
  function ProbedPath(env: Env, fnm: string): string {
    fnm + [PreferredLetter(env.optimize)]
  }

  /** The cache directory and the cached object are neither the source,
      the object nor the probed path of the entry. */
  predicate CacheApart(env: Env, fs: Tree, e: Entry) {
    var d := DerivePaths(env, fs, e.path);
    var dir := CacheDirOf(env, fs, e);
    var red := CacheObjectOf(env, fs, e);
    && dir != d.src && dir != d.obj && dir != ProbedPath(env, e.path)
    && red != d.src && red != d.obj && red != ProbedPath(env, e.path)
  }

  /** Path derivation only looks at the probed path. */
  lemma DeriveFrame(env: Env, fs: Tree, fs': Tree, fnm: string)
    requires Exists(fs, ProbedPath(env, fnm)) <==> Exists(fs', ProbedPath(env, fnm))
    ensures DerivePaths(env, fs', fnm) == DerivePaths(env, fs, fnm)
  {
  }

  /** The staleness test only looks at the source and the object. */
  lemma StaleFrame(env: Env, fs: Tree, fs': Tree, src: string, obj: string)
    requires SameAt(fs, fs', src) && SameAt(fs, fs', obj)
    ensures StaleTest(env, fs', src, obj) == StaleTest(env, fs, src, obj)
  {
  }

  /** Corrected: the repeated test writes at most the redirected object. */
  lemma RecheckFrame(env: Env, fs: Tree, e: Entry, src: string, red: string, p: string)
    requires p != red
    ensures SameAt(fs, Recheck(env, fs, e, src, red, Corrected).fs, p)
  {
  }

  /** Corrected: a redirect writes at most its directory and object. */
  lemma RedirectIntoFrame(env: Env, fs: Tree, e: Entry, src: string, dir: string, red: string, p: string)
    requires p != dir && p != red
    ensures SameAt(fs, RedirectInto(env, fs, e, src, dir, red, Corrected).fs, p)
  {
    if Exists(fs, dir) || env.canMakeDirs(dir) {
      RedirectIntoReady(env, fs, e, src, dir, red, Corrected);
      RecheckFrame(env, DirReady(env, fs, dir), e, src, red, p);
      AfterKeeps(ReadyActions(fs, dir), Recheck(env, DirReady(env, fs, dir), e, src, red, Corrected));
    }
  }

  /** A module entry that resolves to an up-to-date object it is already
      at, on a file system that agrees with `fs` where the entry looks:
      resolving again changes nothing. */
  lemma InPlaceAgain(env: Env, fs: Tree, fs2: Tree, e: Entry)
    requires e.typ == PyModule
    requires Exists(fs, ProbedPath(env, e.path)) <==> Exists(fs2, ProbedPath(env, e.path))
    requires var d := DerivePaths(env, fs, e.path); UpToDate(fs2, d.src, d.obj, env.magic)
    ensures var r := ResolveEntry(env, fs2, e, Corrected);
      r.Resolved? && r.entry == e.(path := DerivePaths(env, fs, e.path).obj) && r.fs == fs2
  {
    DeriveFrame(env, fs, fs2, e.path);
  }

  /** Corrected: an in-place compile that succeeded is not repeated. */
  lemma CompiledAgain(env: Env, fs: Tree, e: Entry, code: seq<byte>)
    requires e.typ == PyModule && ClockAhead(fs, env.now)
    ensures var d := DerivePaths(env, fs, e.path);
      var fs2 := Emit(env, fs, d.obj, code);
      var r := ResolveEntry(env, fs2, e, Corrected);
      r.Resolved? && r.entry == e.(path := d.obj) && r.fs == fs2
  {
    var d := DerivePaths(env, fs, e.path);
    var fs2 := Emit(env, fs, d.obj, code);
    var pre := ProbedPath(env, e.path);
    EmitUpToDate(env, fs, d.src, d.obj, code);
    if EndsWith(e.path, ".py") && d.obj != pre {
      assert SameAt(fs, fs2, pre);
    }
    InPlaceAgain(env, fs, fs2, e);
  }

  /** Corrected: after a redirect that resolved, the in-place compile
      raises again and the redirect finds the cached copy up to date. */
  lemma RedirectedAgain(env: Env, fs: Tree, e: Entry, fs2: Tree)
    requires e.typ == PyModule
    requires var d := DerivePaths(env, fs, e.path);
      && StaleTest(env, fs, d.src, d.obj).verdict == Stale
      && env.compiler(d.src, d.obj) == IOError
    requires var d := DerivePaths(env, fs, e.path);
      && Exists(fs2, CacheDirOf(env, fs, e))
      && UpToDate(fs2, d.src, CacheObjectOf(env, fs, e), env.magic)
      && SameAt(fs, fs2, d.src) && SameAt(fs, fs2, d.obj) && SameAt(fs, fs2, ProbedPath(env, e.path))
    ensures var r := ResolveEntry(env, fs2, e, Corrected);
      r.Resolved? && r.entry == e.(path := CacheObjectOf(env, fs, e)) && r.fs == fs2
  {
    var d := DerivePaths(env, fs, e.path);
    DeriveFrame(env, fs, fs2, e.path);
    StaleFrame(env, fs, fs2, d.src, d.obj);
    assert ObjectOf(env, fs2, e) == d.obj;
    RedirectUnfolds(env, fs2, e, Corrected);
    var rc := Recheck(env, fs2, e, d.src, CacheObjectOf(env, fs, e), Corrected);
    assert rc == Resolved(e.(path := CacheObjectOf(env, fs, e)), fs2, rc.trace);
    AfterKeeps(RedirectPrefix(env, fs2, e), rc);
  }

  /** Corrected: the file system a resolved redirect leaves holds the cache
      directory and an up-to-date cached object, and agrees with `fs` at
      every other path. */
  lemma RedirectLeaves(env: Env, fs: Tree, e: Entry, p: string)
    requires e.typ == PyModule && ClockAhead(fs, env.now)
    requires var d := DerivePaths(env, fs, e.path);
      && StaleTest(env, fs, d.src, d.obj).verdict == Stale
      && env.compiler(d.src, d.obj) == IOError
    requires p != CacheDirOf(env, fs, e) && p != CacheObjectOf(env, fs, e)
    ensures var r := ResolveEntry(env, fs, e, Corrected);
      r.Resolved? ==>
        && Exists(r.fs, CacheDirOf(env, fs, e))
        && UpToDate(r.fs, DerivePaths(env, fs, e.path).src, CacheObjectOf(env, fs, e), env.magic)
        && SameAt(fs, r.fs, p)
  {
    var d := DerivePaths(env, fs, e.path);
    var dir := CacheDirOf(env, fs, e);
    var red := CacheObjectOf(env, fs, e);
    var ri := RedirectInto(env, fs, e, d.src, dir, red, Corrected);
    StaleUnfolds(env, fs, e, Corrected);
    CompileStaleIOError(env, fs, e, d.src, d.obj, Corrected);
    AfterKeeps([Compile(d.src, d.obj)], ri);
    AfterKeeps(d.trace + StaleTest(env, fs, d.src, d.obj).trace, After([Compile(d.src, d.obj)], ri));
    RedirectIntoFrame(env, fs, e, d.src, dir, red, p);
    RedirectIntoUpToDate(env, fs, e, d.src, dir, red);
    if ri.Resolved? {
      RedirectIntoReady(env, fs, e, d.src, dir, red, Corrected);
      AfterKeeps(ReadyActions(fs, dir), Recheck(env, DirReady(env, fs, dir), e, d.src, red, Corrected));
    }
  }

  /** Corrected: resolving a module entry again, on the file system the
      first resolution left, yields the same entry and leaves that file
      system as it is. */
  lemma CorrectedIdempotent(env: Env, fs: Tree, e: Entry)
    requires e.typ == PyModule && ClockAhead(fs, env.now) && CacheApart(env, fs, e)
    ensures var r1 := ResolveEntry(env, fs, e, Corrected);
      r1.Resolved? ==>
        var r2 := ResolveEntry(env, r1.fs, e, Corrected);
        r2.Resolved? && r2.entry == r1.entry && r2.fs == r1.fs
  {
    var d := DerivePaths(env, fs, e.path);
    var r1 := ResolveEntry(env, fs, e, Corrected);
    if StaleTest(env, fs, d.src, d.obj).verdict != Stale {
      UntouchedWhenNotStale(env, fs, e);
      assert ResolveEntry(env, r1.fs, e, Corrected) == r1;
    } else if env.compiler(d.src, d.obj).Compiled? {
      InPlaceIdempotent(env, fs, e);
    } else if env.compiler(d.src, d.obj) == IOError {
      RedirectIdempotent(env, fs, e);
    } else {
      OtherErrorPropagates(env, fs, e, Corrected);
    }
  }

  /** An entry that needs no compile leaves the file system as it was, so
      resolving it again repeats the first resolution. */
  lemma UntouchedWhenNotStale(env: Env, fs: Tree, e: Entry)
    requires e.typ == PyModule
    requires var d := DerivePaths(env, fs, e.path); StaleTest(env, fs, d.src, d.obj).verdict != Stale
    ensures ResolveEntry(env, fs, e, Corrected).fs == fs
  {
  }

  /** The in-place case of `CorrectedIdempotent`. */
  lemma InPlaceIdempotent(env: Env, fs: Tree, e: Entry)
    requires e.typ == PyModule && ClockAhead(fs, env.now)
    requires var d := DerivePaths(env, fs, e.path);
      && StaleTest(env, fs, d.src, d.obj).verdict == Stale
      && env.compiler(d.src, d.obj).Compiled?
    ensures var r1 := ResolveEntry(env, fs, e, Corrected);
      var r2 := ResolveEntry(env, r1.fs, e, Corrected);
      r2.Resolved? && r2.entry == r1.entry && r2.fs == r1.fs
  {
    var d := DerivePaths(env, fs, e.path);
    var code := env.compiler(d.src, d.obj).code;
    StaleUnfolds(env, fs, e, Corrected);
    var r0 := CompileStale(env, fs, e, d.src, d.obj, Corrected);
    assert r0 == Resolved(e.(path := d.obj), Emit(env, fs, d.obj, code), [Compile(d.src, d.obj)]);
    AfterKeeps(d.trace + StaleTest(env, fs, d.src, d.obj).trace, r0);
    CompiledAgain(env, fs, e, code);
  }

  /** The redirect case of `CorrectedIdempotent`. */
  lemma RedirectIdempotent(env: Env, fs: Tree, e: Entry)
    requires e.typ == PyModule && ClockAhead(fs, env.now) && CacheApart(env, fs, e)
    requires var d := DerivePaths(env, fs, e.path);
      && StaleTest(env, fs, d.src, d.obj).verdict == Stale
      && env.compiler(d.src, d.obj) == IOError
    ensures var r1 := ResolveEntry(env, fs, e, Corrected);
      r1.Resolved? ==>
        var r2 := ResolveEntry(env, r1.fs, e, Corrected);
        r2.Resolved? && r2.entry == r1.entry && r2.fs == r1.fs
  {
    var d := DerivePaths(env, fs, e.path);
    var r1 := ResolveEntry(env, fs, e, Corrected);
    if r1.Resolved? {
      RedirectLeaves(env, fs, e, d.src);
      RedirectLeaves(env, fs, e, d.obj);
      RedirectLeaves(env, fs, e, ProbedPath(env, e.path));
      RedirectedAgain(env, fs, e, r1.fs);
      assert r1.entry == e.(path := CacheObjectOf(env, fs, e)) by {
        assert r1.entry == e.(path := RedirectObject(env, e.name, d.obj)) by {
          StaleUnfolds(env, fs, e, Corrected);
          CompileStaleIOError(env, fs, e, d.src, d.obj, Corrected);
        }
      }
    }
  }
}
