# compile_py_files, modelled in Dafny

This project models `compile_py_files` from PyInstaller's `utils/misc.py`, together with its helper `mtime`.

`compile_py_files` walks a table of contents (TOC) of `(name, path, type)` entries. Entries whose type is not `PYMODULE` are copied through. For each module entry it does four things:
- It derives a source path and a compiled-object path. A `.py` path gets `.pyc` or `.pyo`. Any other path is taken as the object, and its last character is dropped to get the source.
- It decides whether the object is stale. The object is stale when the source is newer, or when its first four bytes are not the interpreter's magic number.
- It compiles a stale object in place.
- If the in-place compile raises `IOError`, it redirects into `<workpath>/localpycos/<package dirs>/<module><ext>`. It creates that directory when it is absent and re-tests staleness of the copy there. Only when the copy is stale does it compile again, and that compile targets the entry's own path `fnm`, not the copy (misc.py:246-258).

The result is the TOC with each module's path replaced by the object path chosen.

The model is functional:
- The file system is a map from path to a file (modification time, bytes) or a directory (`FileSystem`).
- The interpreter is an environment `Env`. It holds:
  - the optimize flag;
  - the four-byte magic number;
  - the work path;
  - the clock that stamps written files;
  - an oracle for the outcome of `py_compile.compile(src, dst)`: compiled code, `IOError`, or another error;
  - an oracle for whether `os.makedirs` succeeds.
- One entry is resolved by `CompilePy.ResolveEntry`. The loop is the fold `CompilePy.Run`, and the method `CompilePy.CompilePyFiles` is proved equal to it.
- Every step records the file-system actions it performs: probe, stat, read, compile and makedirs. This lets "nothing is done for this entry" be stated and proved.
- The Python built-ins the path computation relies on are modelled to POSIX semantics:
  - `str.endswith`, slicing off the last character, substring `in` and `str.split` (`PyStrings`);
  - `os.path.join` and the extension half of `os.path.splitext` (`PyPath`).

The redirect's second compile writes to the entry's original path (misc.py:258), not to the redirected object it emits (see Findings). The model therefore has two variants:
- `AsWritten` follows the code.
- `Corrected` compiles into the redirected object.

Nothing else differs between the variants.

Modules:
- `PyStrings` (pystrings.dfy) and `PyPath` (pypath.dfy): string and path built-ins.
- `FileSystem` (filesystem.dfy): the abstract file system and `mtime`.
- `CompilePy` (compile.dfy): the operation itself.
- `CompileProps` (properties.dfy): properties of the in-place path and of the naming rule.
- `RedirectBranch` (redirect.dfy): the redirect branch and the finding.
- `CorrectedIdempotence` (idempotence.dfy): resolving an entry twice with the corrected redirect.

Places where the code does something other than its comments or names suggest. The model follows the code:
- **Missing object and undated source.** The comment at misc.py:211-213 says a build is needed when `obj_fnm` does not exist. The code only tests `mtime(src_fnm) > mtime(obj_fnm)`, so a missing object is stale only when the source's `mtime` is positive. When the source's `mtime` is 0 too, the comparison is false and `open` on the missing object raises (misc.py:218-221, `CompileProps.MissingObject`).
- **Unreadable redirected object.** When the source is not newer than the redirected object, the short-circuit `or` at misc.py:253-255 reaches `open` on that object, and the code raises when it cannot be opened. It is not treated as stale.
- **`.pyo` fallback.** misc.py:202-205 falls back to `.pyo` when no optimize flag is set and no `.pyc` is present. So the redirected copy of a read-only `/ro/a/b.py` with no compiled file is `/tmp/build/localpycos/a/b.pyo` (`RedirectBranch.ReadOnlyScenarioCorrected`).
- **Repeated compile.** An entry whose in-place compile raised `IOError` (misc.py:228-229) tries that compile again on every run, even with the correction. A second run leaves the resulting entry and the file system as they were (`CorrectedIdempotence.CorrectedIdempotent`).

## Model

| member | source | states |
|---|---|---|
| FileSystem.MTime | PyInstaller/utils/misc.py:162-168 | The time `stat` reports for a path that is there, and 0 for a path that is not, so a missing file counts as the oldest |
| FileSystem.ExistsQueries | PyInstaller/utils/misc.py:203 | `os.path.exists` is false only where `mtime` gives 0 and `open` raises, is true wherever `open` succeeds, and is true once a file is written or a directory made at the path (misc.py:248) |
| FileSystem.ReadHead | PyInstaller/utils/misc.py:220 | `open(p,'rb').read()[:4]` succeeds exactly when `p` is a file; the bytes read are a prefix of its contents, exactly four long, or the whole file when it is shorter than four bytes |
| FileSystem.WriteFile | PyInstaller/utils/misc.py:228 | A successful compile leaves a file with the given contents and time stamp at its destination; every other path keeps its node |
| FileSystem.MakeDir | PyInstaller/utils/misc.py:248-249 | A successful `os.makedirs` leaves a directory at the path; every other path keeps its node |
| PyStrings.EndsWithIff | PyInstaller/utils/misc.py:198 | `fnm.endswith(".py")` holds exactly when `fnm` is some string followed by `.py`, and every such string passes it |
| PyStrings.DropLast | PyInstaller/utils/misc.py:209 | `fnm[:-1]` is one character shorter and appending the dropped character gives `fnm` back; the empty string stays empty |
| PyStrings.ContainsIff | PyInstaller/utils/misc.py:237 | The substring test `"__init__" in obj_fnm` holds exactly when the pattern occurs at some position of the object path |
| PyStrings.RFind | PyInstaller/utils/misc.py:235 | The index found holds the character searched for and no later index does; -1 when it is absent |
| PyStrings.Split | PyInstaller/utils/misc.py:240-244 | `nm.split(".")` gives at least one part, no part contains a dot, and joining the parts with dots gives `nm` back |
| PyStrings.SplitJoin | PyInstaller/utils/misc.py:240-244 | Splitting the dot-join of dot-free parts returns exactly those parts |
| PyPath.Join | PyInstaller/utils/misc.py:251 | `os.path.join(a, b)` ends with `b`, and starts with `a` unless `b` is absolute |
| PyPath.JoinAll | PyInstaller/utils/misc.py:246 | `os.path.join(a, *segs)` ends with the last segment, and starts with `a` when no segment is absolute |
| PyPath.JoinAllPlain | PyInstaller/utils/misc.py:246 | `os.path.join(base, *segs)` on slash-free segments puts exactly one `/` before each segment, and the result does not end in `/` |
| PyPath.Ext | PyInstaller/utils/misc.py:235 | `os.path.splitext(p)[1]` is a suffix of `p`: empty, or a dot followed by characters that are neither dots nor slashes |
| PyPath.ExtOfSuffix | PyInstaller/utils/misc.py:235 | The extension of `stem + ".pyc"` (any dot-led, slash-free tail after an ordinary name) is that tail |
| CompilePy.DerivePaths | PyInstaller/utils/misc.py:198-209 | A `.py` path is the source. The object is the source plus the preferred letter exactly when that file exists, otherwise the other letter. Only that one path is probed. Any other path is the object and nothing is probed. Dropping the object's last character always gives the source |
| CompilePy.StaleTest | PyInstaller/utils/misc.py:218-221 | The object is current exactly when it is a file no older than the source that starts with the magic. It is unreadable exactly when the source is not newer than the object and the object is not a file. It is read exactly when the source is not newer (short-circuit). Nothing else is done |
| CompilePy.BasePath | PyInstaller/utils/misc.py:188 | The cache root starts with the work path and ends with `localpycos`. For a plain work path it is exactly `workpath/localpycos`, and for an empty work path or one ending in `/` it is `workpath` followed directly by `localpycos` |
| CompilePy.RedirectParts | PyInstaller/utils/misc.py:237-244 | When "__init__" occurs in the object path, the directories are all name segments and the file is `__init__`. Otherwise the directories followed by the file name are the name segments |
| CompilePy.RedirectDir | PyInstaller/utils/misc.py:246 | The cache directory ends with the last leading segment and lies below the cache root unless a segment is absolute; with no leading segment it is the cache root itself |
| CompilePy.RedirectObject | PyInstaller/utils/misc.py:235-251 | The redirected object path keeps the extension of the original object path |
| CompilePy.RedirectDest | PyInstaller/utils/misc.py:258 | As written, the compile after the redirect targets the entry's own path, which is not the redirected object that is emitted unless the two coincide. Corrected, it targets the redirected object |
| CompilePy.Recheck | PyInstaller/utils/misc.py:251-259 | The re-test on the redirected object creates no directory and removes no path, and a resolved entry points at the redirected object |
| CompilePy.RedirectInto | PyInstaller/utils/misc.py:246-259 | The redirect removes no path and creates a directory only where nothing was; a resolved entry points at the redirected object |
| CompilePy.Redirect | PyInstaller/utils/misc.py:230-259 | The redirect of an object removes no path, creates a directory only where nothing was, and resolves to the object path the naming rule gives |
| CompilePy.CompileStale | PyInstaller/utils/misc.py:222-259 | The in-place compile is the first action of a stale object; nothing is removed, only absent directories are made, and a resolved entry keeps its name and type |
| CompilePy.ResolveModule | PyInstaller/utils/misc.py:198-261 | A module entry removes no path, creates directories only where nothing was, and keeps its name and type when it resolves |
| CompilePy.ResolveEntry | PyInstaller/utils/misc.py:192-261 | A non-`PYMODULE` entry is appended verbatim with no action and the file system untouched. Any entry keeps name and type. No path is removed and directories are made only where nothing was |
| CompilePy.Run | PyInstaller/utils/misc.py:191-263 | The output TOC has the input's length and order, and each entry keeps its name and type. Non-module entries are copied verbatim, no path is removed, and only a module entry can abort the run |
| CompilePy.CompilePyFiles | PyInstaller/utils/misc.py:171-263 | The loop that appends one entry per iteration and stops at the first exception computes exactly the fold `Run` |
| CompileProps.UpToDateNotRecompiled | PyInstaller/utils/misc.py:218-222 | An up-to-date object is emitted as it is: no compile, no makedirs, file system unchanged |
| CompileProps.ForeignMagicRecompiled | PyInstaller/utils/misc.py:218-228 | An object no older than its source but with a foreign magic is still compiled in place |
| CompileProps.StaleCompiles | PyInstaller/utils/misc.py:222-228 | A stale object is handed to the compiler in place, with its source |
| CompileProps.MissingObject | PyInstaller/utils/misc.py:218-228 | A missing object is compiled when the source's `mtime` is positive. When it is 0 the entry raises the read error of the object |
| CompileProps.InPlaceCompileEmitsObject | PyInstaller/utils/misc.py:222-229 | A stale object that compiles in place is emitted at its own path, on any file system, and the file written there carries the magic. It is up to date when no file is newer than the clock |
| CompileProps.OtherErrorPropagates | PyInstaller/utils/misc.py:223-231 | A non-IOError failure of the in-place compile escapes. No directory is made and no other compile is tried |
| CompileProps.BasePathPlain | PyInstaller/utils/misc.py:188 | The cache root `workpath/localpycos` is non-empty and does not end in `/` |
| CompileProps.RedirectLeaf | PyInstaller/utils/misc.py:237-251 | A plain module `a.b.c` (no "__init__" in its object path) is redirected to `<cache>/a/b/c<ext>` in directory `<cache>/a/b` |
| CompileProps.RedirectInit | PyInstaller/utils/misc.py:241-251 | A package initializer `a.b` ("__init__" in its object path) is redirected to `<cache>/a/b/__init__<ext>` in directory `<cache>/a/b` |
| CompileProps.NoModulesUnchanged | PyInstaller/utils/misc.py:191-196 | A TOC with no module entry comes back unchanged, with no action and the file system untouched |
| RedirectBranch.AsWrittenRedirectTarget | PyInstaller/utils/misc.py:256-261 | As written, the redirect's compile targets `fnm`. On success the emitted path is the redirected object while the code went to `fnm`; on failure the error escapes |
| RedirectBranch.AsWrittenObjectEntryRaises | PyInstaller/utils/misc.py:256-258 | As written, an object-path entry that reaches the redirect compile always raises the same IOError again |
| RedirectBranch.AsWrittenSourceEntryEmitsMissing | PyInstaller/utils/misc.py:256-261 | As written, a `.py` entry whose redirect compile succeeds has its source overwritten, and the emitted cache path does not exist |
| RedirectBranch.SecondCompileFailurePropagates | PyInstaller/utils/misc.py:253-259 | A failing compile after the redirect escapes with that failure, in both variants |
| RedirectBranch.MakeDirsFailurePropagates | PyInstaller/utils/misc.py:248-249 | An absent cache directory that cannot be made raises the makedirs error, and nothing is written |
| RedirectBranch.MissingObjectRedirects | PyInstaller/utils/misc.py:218-255 | A missing object with a dated source whose in-place compile raises IOError, and a separate missing cache copy, reaches the redirect compile |
| RedirectBranch.ReadOnlyScenarioAsWritten | PyInstaller/utils/misc.py:256-258 | `("a.b", "/ro/a/b.py", PYMODULE)` with `/ro` read-only, as written: the call raises IOError from compiling into `/ro/a/b.py` |
| RedirectBranch.ReadOnlyScenarioCorrected | PyInstaller/utils/misc.py:251-261 | The same entry, corrected: it resolves to `/tmp/build/localpycos/a/b.pyo`, and that file is up to date |
| RedirectBranch.CorrectedRedirectCompiles | PyInstaller/utils/misc.py:251-261 | Corrected, when no file is newer than the clock: a redirect that compiles writes the emitted object, which is then up to date |
| RedirectBranch.CorrectedEmitsUpToDate | PyInstaller/utils/misc.py:260-261 | Corrected, when no file is newer than the clock: every module entry that resolves points at an object that exists, is no older than its source and carries the magic |
| RedirectBranch.CompileStaleUpToDate | PyInstaller/utils/misc.py:222-261 | Corrected, when no file is newer than the clock: the in-place compile or the redirect after it leaves the object it resolves to up to date |
| RedirectBranch.RedirectIntoUpToDate | PyInstaller/utils/misc.py:246-261 | Corrected, when no file is newer than the clock: a redirect that resolves leaves the redirected object up to date |
| RedirectBranch.EmitUpToDate | PyInstaller/utils/misc.py:228 | A freshly compiled file is up to date with any source when no file is newer than the clock |
| CorrectedIdempotence.DeriveFrame | PyInstaller/utils/misc.py:198-209 | Path derivation depends on the file system only through the existence of the probed path |
| CorrectedIdempotence.StaleFrame | PyInstaller/utils/misc.py:218-221 | The staleness test depends on the file system only at the source and the object |
| CorrectedIdempotence.RedirectLeaves | PyInstaller/utils/misc.py:246-261 | Corrected, when no file is newer than the clock: a resolved redirect leaves its directory and an up-to-date cached copy, and no other path changes |
| CorrectedIdempotence.RedirectedAgain | PyInstaller/utils/misc.py:253-261 | Once the cached copy is up to date, resolving again redirects to it without writing anything |
| CorrectedIdempotence.CorrectedIdempotent | PyInstaller/utils/misc.py:198-261 | Corrected, with the cache paths apart from the entry's own: resolving a module entry again on the file system the first run left gives the same entry and changes nothing |

## Left out

- The other functions of `misc.py` (lines 27-159) are not modelled. They are thin wrappers over `os.walk`, `glob`, `os.environ`, `compile`, `os.listdir` and the user id, with no decision logic.
- `py_compile.compile` and `imp.get_magic()` are not modelled. They are an oracle that is deterministic per (source, destination) pair and a fixed four-byte parameter. Written files get the contents `magic + code` and the time stamp `Env.now`.
- `py_compile.compile` with `doraise` left False (misc.py:228, 258) returns normally on a syntax error without writing anything. The model takes every normal return of the compiler to write the object, so the conclusions that the emitted object exists and carries the magic (`CompileProps.InPlaceCompileEmitsObject`, `RedirectBranch.CorrectedEmitsUpToDate`) do not cover a source with a syntax error.
- Real `stat` is not modelled. Modification times are natural numbers in the file map, and every failure of `stat` is "absent". Permissions are modelled only through the compile and makedirs oracles.
- The race between `os.path.exists` and `os.makedirs` (misc.py:248-249) is concurrency and is not modelled.
- FileSystem.MakeDir: `os.makedirs` (misc.py:249) also creates missing parent directories; the model records only the leaf directory, and its contract says every other path keeps its node. This matters beyond the entry that made the directory: a later entry's `os.path.exists(leading)` (misc.py:248) sees the parents, so where the program finds a parent such as `<cache>/a` present and skips `os.makedirs`, the model records a `MakeDirs` of it and raises if the makedirs oracle refuses it. What is proved about one entry is unaffected; across entries the model can raise or record a makedirs where the program does not.
- Logging calls are not modelled.
- Other platforms' `os.path` rules are not modelled; only the POSIX behaviour of `os.path.join` and `os.path.splitext` is modelled.
- Idempotence of a whole TOC is not proved, only of one entry (`CorrectedIdempotence.CorrectedIdempotent`). Across entries it needs the entries not to share source, object or cache paths.
- CorrectedIdempotence.CorrectedIdempotent: it assumes the cache directory and the cached object differ from the entry's source, object and probed path, and that no file is newer than the clock. Without these, the first run's write can change what the second run sees.
- CompilePy.Run: the length, order, name and type properties are stated for runs that finish. A run that raises returns no TOC, as the code does.

## Findings

| source | as written | input that shows it | evidently intended | confidence | as-written member | corrected member |
|---|---|---|---|---|---|---|
| PyInstaller/utils/misc.py:258 | After redirecting, the compile writes to the entry's original path `fnm`, while the redirected `obj_fnm` is what is appended (misc.py:261) | TOC `[("a.b", "/ro/a/b.py", "PYMODULE")]`, `/ro` read-only, no object file, work path `/tmp/build`, no optimize flag: the second compile targets the read-only `/ro/a/b.py` and the IOError escapes | Compile into the redirected `obj_fnm`, so the emitted `/tmp/build/localpycos/a/b.pyo` exists and is up to date | high (proved on the model; not executed) | RedirectBranch.ReadOnlyScenarioAsWritten | RedirectBranch.ReadOnlyScenarioCorrected |
