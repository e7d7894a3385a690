/**
 The POSIX `os.path` operations `compile_py_files` uses to build the
 redirected object path: `join` and the extension half of `splitext`.
 */
module PyPath {
  import opened PyStrings

  /** `os.path.join(a, b)` on POSIX: an absolute `b` discards `a`; otherwise
      exactly one `/` separates the two unless `a` is empty or already ends
      in `/`. The result always ends with `b`, and keeps `a` in front unless
      `b` is absolute. */
  function Join(a: string, b: string): (r: string)
    ensures EndsWith(r, b)
    ensures !(|b| > 0 && b[0] == '/') ==> |a| <= |r| && r[..|a|] == a
  {
    if |b| > 0 && b[0] == '/' then b
    else if a == "" || EndsWith(a, "/") then a + b
    else a + "/" + b
  }

  /** No segment is absolute, so none discards what was joined before it. */
  predicate NoneAbsolute(bs: seq<string>) {
    forall k :: 0 <= k < |bs| ==> !(|bs[k]| > 0 && bs[k][0] == '/')
  }

  /** `os.path.join(a, *bs)`: the result ends with the last segment, and
      keeps `a` in front when no segment is absolute. */
  function JoinAll(a: string, bs: seq<string>): (r: string)
    ensures |bs| > 0 ==> EndsWith(r, bs[|bs| - 1])
    ensures NoneAbsolute(bs) ==> |a| <= |r| && r[..|a|] == a
    decreases |bs|
  {
    if |bs| == 0 then a else JoinAll(Join(a, bs[0]), bs[1..])
  }

  /** The segments written below a directory, each preceded by `/`. */
  function SlashPath(segs: seq<string>): string
    decreases |segs|
  {
    if |segs| == 0 then "" else "/" + segs[0] + SlashPath(segs[1..])
  }

  /** A path component with no separator in it. */
  predicate PlainSegment(seg: string) {
    |seg| > 0 && '/' !in seg
  }

  /** A non-empty directory path that does not end in a separator. */
  predicate PlainDir(a: string) {
    |a| > 0 && a[|a| - 1] != '/'
  }

  /** One plain segment joined onto a plain directory. */
  lemma JoinPlainStep(a: string, seg: string)
    requires PlainDir(a) && PlainSegment(seg)
    ensures Join(a, seg) == a + "/" + seg
    ensures PlainDir(Join(a, seg))
  {
    assert seg[0] != '/' by { assert seg[0] in seg; }
    assert seg[|seg| - 1] != '/' by { assert seg[|seg| - 1] in seg; }
    assert !EndsWith(a, "/") by { assert a[|a| - 1..] == [a[|a| - 1]]; }
  }

  lemma SeqAssoc(x: string, y: string, z: string)
    ensures (x + y) + z == x + (y + z)
  {
  }

  /** Every segment is plain. */
  predicate AllPlain(segs: seq<string>) {
    forall k :: 0 <= k < |segs| ==> PlainSegment(segs[k])
  }

  lemma AllPlainTail(segs: seq<string>)
    requires |segs| > 0 && AllPlain(segs)
    ensures PlainSegment(segs[0]) && AllPlain(segs[1..])
  {
    assert PlainSegment(segs[0]);
    forall k | 0 <= k < |segs| - 1 ensures PlainSegment(segs[1..][k]) {
      assert segs[1..][k] == segs[k + 1];
    }
  }

  /** One step of `JoinAll` and of `SlashPath` on a plain segment. */
  lemma JoinAllStep(a: string, segs: seq<string>)
    requires PlainDir(a) && |segs| > 0 && PlainSegment(segs[0])
    ensures JoinAll(a, segs) == JoinAll(a + ("/" + segs[0]), segs[1..])
    ensures SlashPath(segs) == ("/" + segs[0]) + SlashPath(segs[1..])
    ensures PlainDir(a + ("/" + segs[0]))
  {
    JoinPlainStep(a, segs[0]);
    SeqAssoc(a, "/", segs[0]);
  }

  /** Joining plain segments onto a plain directory puts exactly one `/`
      before each segment. */
  lemma {:induction false} JoinAllPlain(a: string, segs: seq<string>)
    requires PlainDir(a) && AllPlain(segs)
    ensures JoinAll(a, segs) == a + SlashPath(segs)
    ensures PlainDir(JoinAll(a, segs))
    decreases |segs|
  {
    if |segs| > 0 {
      AllPlainTail(segs);
      var head := "/" + segs[0];
      var tail := SlashPath(segs[1..]);
      JoinAllStep(a, segs);
      JoinAllPlain(a + head, segs[1..]);
      SeqAssoc(a, head, tail);
    }
  }

  /** `os.path.splitext(p)[1]` on POSIX: the part of the last path
      component from its last dot, unless the component consists of dots
      up to that dot (a leading-dot name such as `.pyc` has no extension). */
  function Ext(p: string): (ext: string)
    ensures EndsWith(p, ext)
    ensures ext != [] ==> ext[0] == '.' && '/' !in ext && '.' !in ext[1..]
  {
    var sep := RFind(p, '/');
    var dot := RFind(p, '.');
    if sep < dot && exists k :: sep < k < dot && p[k] != '.' then
      var ext := p[dot..];
      assert forall j :: 0 <= j < |ext| ==> ext[j] == p[dot + j];
      ext
    else []
  }

  /** The extension of `s + e` is `e` when `e` is a dot followed by
      characters other than `.` and `/`, and `s` ends in an ordinary
      file-name character. */
  lemma ExtOfSuffix(s: string, e: string)
    requires |s| > 0 && s[|s| - 1] != '/' && s[|s| - 1] != '.'
    requires |e| > 0 && e[0] == '.' && '.' !in e[1..] && '/' !in e
    ensures Ext(s + e) == e
  {
    var p := s + e;
    var dot := RFind(p, '.');
    var sep := RFind(p, '/');
    assert p[|s|] == '.';
    forall j | |s| < j < |p| ensures p[j] != '.' && p[j] != '/' {
      assert p[j] == e[j - |s|];
      assert e[j - |s|] in e;
      assert e[1..][j - |s| - 1] == e[j - |s|];
    }
    assert p[|s|] != '/' by { assert e[0] in e; }
    assert dot == |s|;
    assert sep < |s| - 1;
    assert sep < |s| - 1 < dot && p[|s| - 1] != '.';
    assert p[dot..] == e;
  }
}
