/**
 An abstract file system: a map from path to node, where a node is a file
 (modification time and contents) or a directory (modification time).
 Only the queries `compile_py_files` makes are modelled: `stat` through
 `mtime`, `os.path.exists`, reading the head of a file, writing a compiled
 file and creating a directory.
 */
module FileSystem {

  newtype byte = b: int | 0 <= b < 256

  datatype Option<T> = None | Some(value: T)

  datatype Node =
    | File(mtime: nat, data: seq<byte>)
    | Dir(mtime: nat)

  type Tree = map<string, Node>

  /** `mtime(fnm)` (misc.py:162-168): the modification time `stat` reports,
      or 0 when `stat` fails, so a missing path counts as the oldest. */
  function MTime(fs: Tree, p: string): (t: nat)
    ensures p !in fs ==> t == 0
    ensures p in fs ==> t == fs[p].mtime
  {
    if p in fs then fs[p].mtime else 0
  }

  /** `os.path.exists(p)`: a file or a directory is there. */
  predicate Exists(fs: Tree, p: string) {
    p in fs
  }

  /** `os.path.exists(p)` against the other queries: a path that is not
      there has `mtime` 0 and cannot be opened, one that can be opened is
      there, and writing a file or making a directory at `p` makes it exist. */
  lemma ExistsQueries(fs: Tree, p: string, now: nat, data: seq<byte>)
    ensures !Exists(fs, p) ==> MTime(fs, p) == 0 && ReadHead(fs, p, 4).None?
    ensures ReadHead(fs, p, 4).Some? ==> Exists(fs, p)
    ensures Exists(WriteFile(fs, p, now, data), p) && Exists(MakeDir(fs, p, now), p)
  {
  }

  /** `open(p, 'rb').read()[:n]`: `None` when `open` raises (nothing there,
      or a directory); otherwise the first `n` bytes, or the whole file when
      it is shorter. */
  function ReadHead(fs: Tree, p: string, n: nat): (r: Option<seq<byte>>)
    ensures r.Some? <==> p in fs && fs[p].File?
    ensures r.Some? ==> r.value <= fs[p].data
    ensures r.Some? ==> |r.value| == if |fs[p].data| < n then |fs[p].data| else n
  {
    if p in fs && fs[p].File? then
      var data := fs[p].data;
      Some(if |data| <= n then data else data[..n])
    else None
  }

  /** The file at `p` is replaced (or created) with the given contents and
      stamped with time `now`; every other path keeps its node. */
  function WriteFile(fs: Tree, p: string, now: nat, data: seq<byte>): (r: Tree)
    ensures p in r && r[p] == File(now, data)
    ensures forall q :: q != p ==> (q in r <==> q in fs)
    ensures forall q :: q != p && q in fs ==> r[q] == fs[q]
  {
    fs[p := File(now, data)]
  }

  /** `os.makedirs(p)` when it succeeds: a directory appears at `p`; every
      other path keeps its node. Parent directories are not recorded. */
  function MakeDir(fs: Tree, p: string, now: nat): (r: Tree)
    ensures p in r && r[p] == Dir(now)
    ensures forall q :: q != p ==> (q in r <==> q in fs)
    ensures forall q :: q != p && q in fs ==> r[q] == fs[q]
  {
    fs[p := Dir(now)]
  }

  /** No node carries a modification time later than `now`. */
  predicate ClockAhead(fs: Tree, now: nat) {
    forall p :: p in fs ==> fs[p].mtime <= now
  }
}
