/**
 The redirect branch of misc.py:230-259, taken when the in-place compile
 raises IOError: how it unfolds, which failures escape it, and what it
 leaves behind.

 The redirect branch compiles into the entry's original path `fnm`
 (misc.py:258) but emits the redirected object path (misc.py:251, 261).
 As written, the emitted cache file is therefore never produced by that
 compile: for an object-shaped entry the compile repeats the one that just
 raised IOError, and for a `.py` entry it overwrites the source itself.
 The corrected variant compiles into the redirected path. For it, when no
 file is newer than the clock, every emitted object is up to date; and when
 moreover the cache paths are apart from the entry's own paths, resolving
 an entry a second time changes nothing.
 */
module RedirectBranch {
  import opened PyStrings
  import opened PyPath
  import opened FileSystem
  import opened CompilePy
  import opened CompileProps

  /** The file system once the cache directory `p` is in place. */
  function DirReady(env: Env, fs: Tree, p: string): (r: Tree)
    ensures Exists(r, p)
    ensures fs.Keys <= r.Keys
  {
    if Exists(fs, p) then fs else MakeDir(fs, p, env.now)
  }

  lemma DirReadyClock(env: Env, fs: Tree, p: string)
    requires ClockAhead(fs, env.now)
    ensures ClockAhead(DirReady(env, fs, p), env.now)
  {
  }

  /** The entry's source and object paths, and where it is redirected to. */
  function SourceOf(env: Env, fs: Tree, e: Entry): string {
    DerivePaths(env, fs, e.path).src
  }

  function ObjectOf(env: Env, fs: Tree, e: Entry): string {
    DerivePaths(env, fs, e.path).obj
  }

  function CacheDirOf(env: Env, fs: Tree, e: Entry): string {
    RedirectDir(env, e.name, ObjectOf(env, fs, e))
  }

  function CacheObjectOf(env: Env, fs: Tree, e: Entry): string {
    RedirectObject(env, e.name, ObjectOf(env, fs, e))
  }

  /** The situation of the redirect: a stale object whose in-place compile
      raised IOError, with a cache directory that exists or can be made,
      and a redirected object that is stale too. */
  predicate RedirectCompiles(env: Env, fs: Tree, e: Entry) {
    var d := DerivePaths(env, fs, e.path);
    var dir := CacheDirOf(env, fs, e);
    && e.typ == PyModule
    && StaleTest(env, fs, d.src, d.obj).verdict == Stale
    && env.compiler(d.src, d.obj) == IOError
    && (Exists(fs, dir) || env.canMakeDirs(dir))
    && StaleTest(env, DirReady(env, fs, dir), d.src, CacheObjectOf(env, fs, e)).verdict == Stale
  }

  /** The actions before the repeated staleness test of a redirect. */
  function RedirectPrefix(env: Env, fs: Tree, e: Entry): seq<Action> {
    var d := DerivePaths(env, fs, e.path);
    var dir := CacheDirOf(env, fs, e);
    d.trace + StaleTest(env, fs, d.src, d.obj).trace + [Compile(d.src, d.obj)]
      + ReadyActions(fs, dir)
  }

  /** Once the in-place compile raised IOError and the cache directory is
      in place, the entry resolves exactly as the repeated staleness test on
      the redirected object does. */
  lemma RedirectUnfolds(env: Env, fs: Tree, e: Entry, v: Variant)
    requires e.typ == PyModule
    requires var d := DerivePaths(env, fs, e.path);
      && StaleTest(env, fs, d.src, d.obj).verdict == Stale
      && env.compiler(d.src, d.obj) == IOError
    requires Exists(fs, CacheDirOf(env, fs, e)) || env.canMakeDirs(CacheDirOf(env, fs, e))
    ensures ResolveEntry(env, fs, e, v) ==
      After(RedirectPrefix(env, fs, e),
            Recheck(env, DirReady(env, fs, CacheDirOf(env, fs, e)), e,
                    DerivePaths(env, fs, e.path).src, CacheObjectOf(env, fs, e), v))
  {
    var d := DerivePaths(env, fs, e.path);
    var t := d.trace + StaleTest(env, fs, d.src, d.obj).trace;
    StaleUnfolds(env, fs, e, v);
    CompileStaleIOError(env, fs, e, d.src, d.obj, v);
    CompileStaleRedirects(env, fs, e, v, ResolveEntry(env, fs, e, v), t, d.src, d.obj,
                          CacheDirOf(env, fs, e), CacheObjectOf(env, fs, e));
  }

  /** An outcome that continues with a redirect into a directory that
      exists or can be made continues with the re-test there. */
  lemma CompileStaleRedirects(env: Env, fs: Tree, e: Entry, v: Variant, r: Outcome, t: seq<Action>,
                              src: string, obj: string, dir: string, red: string)
    requires r == After(t, After([Compile(src, obj)], RedirectInto(env, fs, e, src, dir, red, v)))
    requires Exists(fs, dir) || env.canMakeDirs(dir)
    ensures r == After(t + [Compile(src, obj)] + ReadyActions(fs, dir), Recheck(env, DirReady(env, fs, dir), e, src, red, v))
  {
    var rc := Recheck(env, DirReady(env, fs, dir), e, src, red, v);
    var pre := ReadyActions(fs, dir);
    var c := [Compile(src, obj)];
    RedirectIntoReady(env, fs, e, src, dir, red, v);
    AfterAfter(c, pre, rc);
    AfterAfter(t, c + pre, rc);
    assert t + (c + pre) == t + c + pre;
  }

  /** The probe, and the `makedirs` when needed, of directory `dir`. */
  function ReadyActions(fs: Tree, dir: string): seq<Action> {
    if Exists(fs, dir) then [Probe(dir)] else [Probe(dir), MakeDirs(dir)]
  }

  /** A redirect whose directory exists or can be made re-tests the
      redirected object in the file system where the directory exists. */
  lemma RedirectIntoReady(env: Env, fs: Tree, e: Entry, src: string, dir: string, red: string, v: Variant)
    requires Exists(fs, dir) || env.canMakeDirs(dir)
    ensures RedirectInto(env, fs, e, src, dir, red, v)
         == After(ReadyActions(fs, dir), Recheck(env, DirReady(env, fs, dir), e, src, red, v))
  {
  }

  /** As written: the redirect's compile goes to the entry's own path while
      the redirected path is what is emitted. */
  lemma AsWrittenRedirectTarget(env: Env, fs: Tree, e: Entry)
    requires RedirectCompiles(env, fs, e)
    ensures var d := DerivePaths(env, fs, e.path);
      var r := ResolveEntry(env, fs, e, AsWritten);
      var fs1 := DirReady(env, fs, CacheDirOf(env, fs, e));
      && Compile(d.src, e.path) in r.trace
      && match env.compiler(d.src, e.path)
         case Compiled(code) =>
           r == Resolved(e.(path := CacheObjectOf(env, fs, e)), Emit(env, fs1, e.path, code), r.trace)
         case _ =>
           r == Raised(CompileFailed(d.src, e.path, env.compiler(d.src, e.path)), fs1, r.trace)
  {
    var d := DerivePaths(env, fs, e.path);
    var fs1 := DirReady(env, fs, CacheDirOf(env, fs, e));
    var red := CacheObjectOf(env, fs, e);
    var rc := Recheck(env, fs1, e, d.src, red, AsWritten);
    RedirectUnfolds(env, fs, e, AsWritten);
    assert rc.trace == StaleTest(env, fs1, d.src, red).trace + [Compile(d.src, e.path)];
    assert Compile(d.src, e.path) in rc.trace;
    var r := ResolveEntry(env, fs, e, AsWritten);
    assert r.trace == RedirectPrefix(env, fs, e) + rc.trace;
  }

  /** As written, an object-shaped entry (`fnm` not ending in `.py`) can
      never be redirected when the cached copy needs compiling: the second
      compile targets `fnm` again and raises the same IOError. */
  lemma AsWrittenObjectEntryRaises(env: Env, fs: Tree, e: Entry)
    requires RedirectCompiles(env, fs, e) && !EndsWith(e.path, ".py")
    ensures ResolveEntry(env, fs, e, AsWritten).Raised?
    ensures ResolveEntry(env, fs, e, AsWritten).error == CompileFailed(DerivePaths(env, fs, e.path).src, e.path, IOError)
  {
    AsWrittenRedirectTarget(env, fs, e);
  }

  /** As written, a `.py` entry whose redirect "succeeds" has had its source
      overwritten by the compiled code, and the emitted cache path holds
      nothing. */
  lemma AsWrittenSourceEntryEmitsMissing(env: Env, fs: Tree, e: Entry)
    requires RedirectCompiles(env, fs, e) && EndsWith(e.path, ".py")
    requires CacheObjectOf(env, fs, e) !in DirReady(env, fs, CacheDirOf(env, fs, e))
    requires CacheObjectOf(env, fs, e) != e.path
    requires env.compiler(e.path, e.path).Compiled?
    ensures var r := ResolveEntry(env, fs, e, AsWritten);
      && r.Resolved?
      && r.entry.path == CacheObjectOf(env, fs, e)
      && r.entry.path !in r.fs
      && r.fs[e.path] == File(env.now, env.magic + env.compiler(e.path, e.path).code)
  {
    AsWrittenRedirectTarget(env, fs, e);
  }

  /** The environment of the scenario below: no optimize flag, everything
      under `/ro/` read-only, every other compile succeeds. */
  function ReadOnlyEnv(): Env {
    Env(false, [1, 2, 3, 4], "/tmp/build", 10,
        (src: string, dst: string) => if |dst| >= 4 && dst[..4] == "/ro/" then IOError else Compiled([7]),
        (p: string) => true)
  }

  lemma NotContainsWithoutFirst(s: string, sub: string)
    requires |sub| > 0 && sub[0] !in s
    ensures !Contains(s, sub)
  {
    ContainsIff(s, sub);
    forall i ensures !OccursAt(s, sub, i) {
      if 0 <= i && i + |sub| <= |s| {
        assert s[i] in s;
        assert s[i..i + |sub|][0] == s[i];
      }
    }
  }

  /** The scenario's file system holds only the source, and its entry is a
      plain module given by its source path. */
  function ScenarioFs(): Tree {
    map["/ro/a/b.py" := File(1, [])]
  }

  function ScenarioEntry(): Entry {
    Entry("a.b", "/ro/a/b.py", PyModule)
  }

  /** No `.pyc` exists, so the object falls back to `.pyo`. */
  lemma ScenarioObject()
    ensures ObjectOf(ReadOnlyEnv(), ScenarioFs(), ScenarioEntry()) == "/ro/a/b.pyo"
    ensures DerivePaths(ReadOnlyEnv(), ScenarioFs(), ScenarioEntry().path).src == "/ro/a/b.py"
  {
    assert EndsWith("/ro/a/b.py", ".py");
    assert "/ro/a/b.py" + ['c'] == "/ro/a/b.pyc";
    assert "/ro/a/b.py" + ['o'] == "/ro/a/b.pyo";
    assert "/ro/a/b.pyc" !in ScenarioFs();
  }

  lemma ScenarioBase()
    ensures BasePath("/tmp/build") == "/tmp/build/localpycos"
  {
    var w := "/tmp/build";
    assert w[|w| - 1] == 'd';
    assert CacheDirName[0] == 'l';
    assert '/' !in CacheDirName by {
      assert forall k :: 0 <= k < |CacheDirName| ==> CacheDirName[k] != '/';
    }
    JoinPlainStep(w, CacheDirName);
  }

  /** The cache copy is `/tmp/build/localpycos/a/b.pyo`, in directory
      `/tmp/build/localpycos/a`. */
  lemma ScenarioCache()
    ensures CacheDirOf(ReadOnlyEnv(), ScenarioFs(), ScenarioEntry()) == "/tmp/build/localpycos/a"
    ensures CacheObjectOf(ReadOnlyEnv(), ScenarioFs(), ScenarioEntry()) == "/tmp/build/localpycos/a/b.pyo"
  {
    ScenarioObject();
    ScenarioObjectFacts();
    ScenarioName();
    RedirectLeaf(ReadOnlyEnv(), ["a", "b"], "/ro/a/b.pyo");
    ScenarioBase();
    ScenarioStrings();
  }

  /** The scenario's object path has extension `.pyo` and no "__init__". */
  lemma ScenarioObjectFacts()
    ensures Ext("/ro/a/b.pyo") == ".pyo"
    ensures !Contains("/ro/a/b.pyo", InitName)
  {
    assert "/ro/a/b.pyo" == "/ro/a/b" + ".pyo";
    ExtOfSuffix("/ro/a/b", ".pyo");
    NotContainsWithoutFirst("/ro/a/b.pyo", InitName);
  }

  /** The module name `a.b` and the cache sub-path it names. */
  lemma ScenarioName()
    ensures JoinWith(["a", "b"], '.') == "a.b"
    ensures PlainName(["a", "b"])
    ensures ["a", "b"][..1] == ["a"]
    ensures SlashPath(["a"]) == "/a" && SlashPath(["a", "b"]) == "/a/b"
  {
    var segs := ["a", "b"];
    assert PlainSegment(segs[0]) && PlainSegment(segs[1]);
    assert SlashPath(["b"]) == "/b";
  }

  /** Facts about the scenario's literal paths. */
  lemma ScenarioStrings()
    ensures "/tmp/build/localpycos" + "/a" == "/tmp/build/localpycos/a"
    ensures "/tmp/build/localpycos" + "/a/b" + ".pyo" == "/tmp/build/localpycos/a/b.pyo"
    ensures "/tmp/build/localpycos/a/b.pyo"[..4] != "/ro/"
    ensures "/ro/a/b.pyo"[..4] == "/ro/" && "/ro/a/b.py"[..4] == "/ro/"
    ensures "/tmp/build/localpycos/a/b.pyo" !in {"/tmp/build/localpycos/a", "/ro/a/b.py"}
    ensures "/tmp/build/localpycos/a" != "/ro/a/b.py"
  {
    assert "/tmp/build/localpycos/a/b.pyo"[1] == 't';
    assert |"/tmp/build/localpycos/a/b.pyo"| != |"/tmp/build/localpycos/a"|;
    assert |"/tmp/build/localpycos/a/b.pyo"| != |"/ro/a/b.py"|;
    assert |"/tmp/build/localpycos/a"| != |"/ro/a/b.py"|;
  }

  /** A missing object whose in-place compile raises IOError, with a
      missing cache copy distinct from the cache directory and the source,
      and a source with a positive time stamp: the redirect compiles. */
  lemma MissingObjectRedirects(env: Env, fs: Tree, e: Entry)
    requires e.typ == PyModule
    requires ObjectOf(env, fs, e) !in fs && MTime(fs, SourceOf(env, fs, e)) > 0
    requires env.compiler(SourceOf(env, fs, e), ObjectOf(env, fs, e)) == IOError
    requires Exists(fs, CacheDirOf(env, fs, e)) || env.canMakeDirs(CacheDirOf(env, fs, e))
    requires CacheObjectOf(env, fs, e) !in fs && CacheObjectOf(env, fs, e) != CacheDirOf(env, fs, e)
    requires SourceOf(env, fs, e) != CacheDirOf(env, fs, e)
    ensures RedirectCompiles(env, fs, e)
  {
    var d := DerivePaths(env, fs, e.path);
    var dir := CacheDirOf(env, fs, e);
    var red := CacheObjectOf(env, fs, e);
    var fs1 := DirReady(env, fs, dir);
    assert red !in fs1;
    assert MTime(fs1, d.src) == MTime(fs, d.src);
  }

  /** What the scenario's compiler does with the calls that are made. */
  lemma ScenarioCompiler()
    ensures ReadOnlyEnv().compiler("/ro/a/b.py", "/ro/a/b.pyo") == IOError
    ensures ReadOnlyEnv().compiler("/ro/a/b.py", "/ro/a/b.py") == IOError
    ensures ReadOnlyEnv().compiler("/ro/a/b.py", "/tmp/build/localpycos/a/b.pyo") == Compiled([7])
  {
    ScenarioStrings();
  }

  /** The scenario's source is dated 1 and its object is missing. */
  lemma ScenarioSourceFacts()
    ensures ScenarioEntry().typ == PyModule
    ensures ObjectOf(ReadOnlyEnv(), ScenarioFs(), ScenarioEntry()) !in ScenarioFs()
    ensures MTime(ScenarioFs(), SourceOf(ReadOnlyEnv(), ScenarioFs(), ScenarioEntry())) == 1
    ensures ReadOnlyEnv().compiler(SourceOf(ReadOnlyEnv(), ScenarioFs(), ScenarioEntry()),
                                   ObjectOf(ReadOnlyEnv(), ScenarioFs(), ScenarioEntry())) == IOError
  {
    ScenarioObject();
    ScenarioCompiler();
  }

  /** The scenario's cache directory can be made. */
  lemma ScenarioDirMade()
    ensures ReadOnlyEnv().canMakeDirs(CacheDirOf(ReadOnlyEnv(), ScenarioFs(), ScenarioEntry()))
  {
  }

  /** The scenario's cache copy is missing and differs from the cache
      directory and the source. */
  lemma ScenarioCacheFacts()
    ensures CacheObjectOf(ReadOnlyEnv(), ScenarioFs(), ScenarioEntry()) !in ScenarioFs()
    ensures CacheObjectOf(ReadOnlyEnv(), ScenarioFs(), ScenarioEntry())
         != CacheDirOf(ReadOnlyEnv(), ScenarioFs(), ScenarioEntry())
  {
    ScenarioCache();
    ScenarioStrings();
  }

  lemma ScenarioSourceApart()
    ensures SourceOf(ReadOnlyEnv(), ScenarioFs(), ScenarioEntry())
         != CacheDirOf(ReadOnlyEnv(), ScenarioFs(), ScenarioEntry())
  {
    ScenarioObject();
    ScenarioCache();
    ScenarioStrings();
  }

  /** The scenario reaches the redirect: the missing object is stale, its
      compile under `/ro/` raises IOError, and the cache copy is missing. */
  lemma ScenarioRedirects()
    ensures RedirectCompiles(ReadOnlyEnv(), ScenarioFs(), ScenarioEntry())
  {
    ScenarioSourceFacts();
    ScenarioDirMade();
    ScenarioCacheFacts();
    ScenarioSourceApart();
    MissingObjectRedirects(ReadOnlyEnv(), ScenarioFs(), ScenarioEntry());
  }

  /** The read-only scenario as written: the redirect's compile targets the
      read-only source and the IOError escapes. */
  lemma ReadOnlyScenarioAsWritten()
    ensures var r := ResolveEntry(ReadOnlyEnv(), ScenarioFs(), ScenarioEntry(), AsWritten);
      r.Raised? && r.error == CompileFailed("/ro/a/b.py", "/ro/a/b.py", IOError)
  {
    ScenarioRedirects();
    ScenarioObject();
    ScenarioCompiler();
    SecondCompileFailurePropagates(ReadOnlyEnv(), ScenarioFs(), ScenarioEntry(), AsWritten);
  }

  /** The read-only scenario corrected: the entry is redirected into the
      cache and the cached object is up to date. */
  lemma ReadOnlyScenarioCorrected()
    ensures var r := ResolveEntry(ReadOnlyEnv(), ScenarioFs(), ScenarioEntry(), Corrected);
      && r.Resolved?
      && r.entry == Entry("a.b", "/tmp/build/localpycos/a/b.pyo", PyModule)
      && UpToDate(r.fs, "/ro/a/b.py", "/tmp/build/localpycos/a/b.pyo", ReadOnlyEnv().magic)
  {
    ScenarioRedirects();
    ScenarioObject();
    ScenarioCache();
    ScenarioCompiler();
    ScenarioClock();
    CorrectedRedirectCompiles(ReadOnlyEnv(), ScenarioFs(), ScenarioEntry());
  }

  lemma ScenarioClock()
    ensures ClockAhead(ScenarioFs(), ReadOnlyEnv().now)
  {
  }

  /** A failing compile after the redirect propagates, whichever path it
      writes. */
  lemma SecondCompileFailurePropagates(env: Env, fs: Tree, e: Entry, v: Variant)
    requires RedirectCompiles(env, fs, e)
    requires !env.compiler(SourceOf(env, fs, e), RedirectDest(e, CacheObjectOf(env, fs, e), v)).Compiled?
    ensures var src := SourceOf(env, fs, e);
      var dst := RedirectDest(e, CacheObjectOf(env, fs, e), v);
      var r := ResolveEntry(env, fs, e, v);
      r.Raised? && r.error == CompileFailed(src, dst, env.compiler(src, dst))
  {
    var fs1 := DirReady(env, fs, CacheDirOf(env, fs, e));
    var rc := Recheck(env, fs1, e, SourceOf(env, fs, e), CacheObjectOf(env, fs, e), v);
    RedirectUnfolds(env, fs, e, v);
    AfterKeeps(RedirectPrefix(env, fs, e), rc);
  }

  /** A cache directory that is absent and cannot be made: the `makedirs`
      error propagates and nothing is written. */
  lemma MakeDirsFailurePropagates(env: Env, fs: Tree, e: Entry, v: Variant)
    requires e.typ == PyModule
    requires var d := DerivePaths(env, fs, e.path);
      && StaleTest(env, fs, d.src, d.obj).verdict == Stale
      && env.compiler(d.src, d.obj) == IOError
    requires !Exists(fs, CacheDirOf(env, fs, e)) && !env.canMakeDirs(CacheDirOf(env, fs, e))
    ensures var r := ResolveEntry(env, fs, e, v);
      r == Raised(MakeDirsFailed(CacheDirOf(env, fs, e)), fs, r.trace)
  {
    var d := DerivePaths(env, fs, e.path);
    var t := d.trace + StaleTest(env, fs, d.src, d.obj).trace;
    var dir := CacheDirOf(env, fs, e);
    StaleUnfolds(env, fs, e, v);
    CompileStaleIOError(env, fs, e, d.src, d.obj, v);
    var ri := RedirectInto(env, fs, e, d.src, dir, CacheObjectOf(env, fs, e), v);
    assert ri == Raised(MakeDirsFailed(dir), fs, [Probe(dir), MakeDirs(dir)]);
    AfterKeeps([Compile(d.src, d.obj)], ri);
    AfterKeeps(t, After([Compile(d.src, d.obj)], ri));
  }

  /** Corrected: in the redirect situation the compile writes the
      redirected object, which is what is emitted. */
  lemma CorrectedRedirectCompiles(env: Env, fs: Tree, e: Entry)
    requires RedirectCompiles(env, fs, e)
    requires ClockAhead(fs, env.now)
    requires env.compiler(DerivePaths(env, fs, e.path).src, CacheObjectOf(env, fs, e)).Compiled?
    ensures var r := ResolveEntry(env, fs, e, Corrected);
      && r.Resolved? && r.entry == e.(path := CacheObjectOf(env, fs, e))
      && UpToDate(r.fs, DerivePaths(env, fs, e.path).src, r.entry.path, env.magic)
  {
    var d := DerivePaths(env, fs, e.path);
    var fs1 := DirReady(env, fs, CacheDirOf(env, fs, e));
    var red := CacheObjectOf(env, fs, e);
    DirReadyClock(env, fs, CacheDirOf(env, fs, e));
    RedirectUnfolds(env, fs, e, Corrected);
    var rc := Recheck(env, fs1, e, d.src, red, Corrected);
    RecheckCorrectedUpToDate(env, fs1, e, d.src, red);
    AfterKeeps(RedirectPrefix(env, fs, e), rc);
  }

  /** A freshly compiled object is up to date with any source when no file
      is newer than the clock. */
  lemma EmitUpToDate(env: Env, fs: Tree, src: string, dst: string, code: seq<byte>)
    requires ClockAhead(fs, env.now)
    ensures UpToDate(Emit(env, fs, dst, code), src, dst, env.magic)
    ensures ClockAhead(Emit(env, fs, dst, code), env.now)
  {
    var fs1 := Emit(env, fs, dst, code);
    assert (env.magic + code)[..4] == env.magic;
    if src != dst && src in fs {
      assert fs1[src] == fs[src];
    }
  }

  /** Corrected: a repeated staleness test that resolves leaves the
      redirected object up to date. */
  lemma RecheckCorrectedUpToDate(env: Env, fs: Tree, e: Entry, src: string, red: string)
    requires ClockAhead(fs, env.now)
    ensures var rc := Recheck(env, fs, e, src, red, Corrected);
      rc.Resolved? ==> rc.entry.path == red && UpToDate(rc.fs, src, red, env.magic)
  {
    if StaleTest(env, fs, src, red).verdict == Stale && env.compiler(src, red).Compiled? {
      EmitUpToDate(env, fs, src, red, env.compiler(src, red).code);
    }
  }

  /** Corrected: every module entry that resolves points at an object that
      exists, is no older than its source and carries the magic number. */
  lemma CorrectedEmitsUpToDate(env: Env, fs: Tree, e: Entry)
    requires e.typ == PyModule && ClockAhead(fs, env.now)
    ensures var r := ResolveEntry(env, fs, e, Corrected);
      r.Resolved? ==> UpToDate(r.fs, DerivePaths(env, fs, e.path).src, r.entry.path, env.magic)
  {
    var d := DerivePaths(env, fs, e.path);
    var c := StaleTest(env, fs, d.src, d.obj);
    if c.verdict == Stale {
      StaleUnfolds(env, fs, e, Corrected);
      CompileStaleUpToDate(env, fs, e, d.src, d.obj);
      AfterKeeps(d.trace + c.trace, CompileStale(env, fs, e, d.src, d.obj, Corrected));
    }
  }

  /** Corrected: the in-place compile, or the redirect after it, leaves
      whatever object it resolves to up to date. */
  lemma CompileStaleUpToDate(env: Env, fs: Tree, e: Entry, src: string, obj: string)
    requires ClockAhead(fs, env.now)
    ensures var r := CompileStale(env, fs, e, src, obj, Corrected);
      r.Resolved? ==> UpToDate(r.fs, src, r.entry.path, env.magic)
  {
    match env.compiler(src, obj) {
      case Compiled(code) =>
        EmitUpToDate(env, fs, src, obj, code);
      case OtherError =>
      case IOError =>
        var dir := RedirectDir(env, e.name, obj);
        var red := RedirectObject(env, e.name, obj);
        CompileStaleIOError(env, fs, e, src, obj, Corrected);
        RedirectIntoUpToDate(env, fs, e, src, dir, red);
        AfterKeeps([Compile(src, obj)], RedirectInto(env, fs, e, src, dir, red, Corrected));
    }
  }

  /** Corrected: a redirect that resolves leaves the redirected object up
      to date. */
  lemma RedirectIntoUpToDate(env: Env, fs: Tree, e: Entry, src: string, dir: string, red: string)
    requires ClockAhead(fs, env.now)
    ensures var r := RedirectInto(env, fs, e, src, dir, red, Corrected);
      r.Resolved? ==> r.entry.path == red && UpToDate(r.fs, src, red, env.magic)
  {
    if Exists(fs, dir) || env.canMakeDirs(dir) {
      var fs1 := DirReady(env, fs, dir);
      DirReadyClock(env, fs, dir);
      RedirectIntoReady(env, fs, e, src, dir, red, Corrected);
      RecheckCorrectedUpToDate(env, fs1, e, src, red);
      AfterKeeps(ReadyActions(fs, dir), Recheck(env, fs1, e, src, red, Corrected));
    }
  }
}
