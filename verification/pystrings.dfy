/**
 Python string operations used by `compile_py_files`, stated on `seq<char>`:
 `endswith`, slicing off the last character, the `in` substring test,
 `rfind` and `split` on a single-character separator.
 */
module PyStrings {

  /** `s.endswith(suffix)` */
  predicate EndsWith(s: string, suffix: string) {
    |suffix| <= |s| && s[|s| - |suffix|..] == suffix
  }

  /** `s.endswith(suffix)` holds exactly when `s` is some string followed
      by `suffix`. */
  lemma EndsWithIff(s: string, suffix: string)
    ensures EndsWith(s, suffix) <==> |suffix| <= |s| && s[..|s| - |suffix|] + suffix == s
    ensures forall p :: EndsWith(p + suffix, suffix)
  {
    forall p ensures EndsWith(p + suffix, suffix) {
      assert (p + suffix)[|p|..] == suffix;
    }
  }

  /** `s[:-1]`: the last character is dropped; the empty string stays empty. */
  function DropLast(s: string): (r: string)
    ensures |s| == 0 ==> r == []
    ensures |s| > 0 ==> |r| == |s| - 1 && r + [s[|s| - 1]] == s
  {
    if |s| == 0 then s else s[..|s| - 1]
  }

  /** `sub in s` on strings, computed by scanning `s` from the left. */
  predicate Contains(s: string, sub: string)
    decreases |s|
  {
    |sub| <= |s| && (s[..|sub|] == sub || (|s| > 0 && Contains(s[1..], sub)))
  }

  /** `sub` occurs in `s` starting at index `i`. */
  ghost predicate OccursAt(s: string, sub: string, i: int) {
    0 <= i && i + |sub| <= |s| && s[i..i + |sub|] == sub
  }

  /** The scanning test agrees with the window definition of substring. */
  lemma {:induction false} ContainsIff(s: string, sub: string)
    ensures Contains(s, sub) <==> exists i :: OccursAt(s, sub, i)
    decreases |s|
  {
    if Contains(s, sub) {
      if s[..|sub|] == sub {
        assert OccursAt(s, sub, 0);
      } else {
        ContainsIff(s[1..], sub);
        var i :| OccursAt(s[1..], sub, i);
        assert s[1..][i..i + |sub|] == s[i + 1..i + 1 + |sub|];
        assert OccursAt(s, sub, i + 1);
      }
    }
    if exists i :: OccursAt(s, sub, i) {
      var i :| OccursAt(s, sub, i);
      if i > 0 {
        assert s[1..][i - 1..i - 1 + |sub|] == s[i..i + |sub|];
        assert OccursAt(s[1..], sub, i - 1);
        ContainsIff(s[1..], sub);
      }
    }
  }

  /** `s.rfind(c)`: the index of the last occurrence of `c`, or -1. */
  function RFind(s: string, c: char): (i: int)
    ensures -1 <= i < |s|
    ensures 0 <= i ==> s[i] == c
    ensures forall j :: i < j < |s| ==> s[j] != c
    decreases |s|
  {
    if |s| == 0 then -1
    else if s[|s| - 1] == c then |s| - 1
    else RFind(s[..|s| - 1], c)
  }

  /** `sep.join(parts)` */
  function JoinWith(parts: seq<string>, sep: char): string
    requires |parts| >= 1
    decreases |parts|
  {
    if |parts| == 1 then parts[0] else parts[0] + [sep] + JoinWith(parts[1..], sep)
  }

  /** `s.split(sep)`: never empty, no part holds the separator, and joining
      the parts with the separator gives `s` back. */
  function Split(s: string, sep: char): (parts: seq<string>)
    ensures |parts| >= 1
    ensures forall k :: 0 <= k < |parts| ==> sep !in parts[k]
    ensures JoinWith(parts, sep) == s
    decreases |s|
  {
    if |s| == 0 then [""]
    else
      var rest := Split(s[1..], sep);
      if s[0] == sep then
        assert ([""] + rest)[1..] == rest;
        [""] + rest
      else
        var parts := [[s[0]] + rest[0]] + rest[1..];
        assert parts[1..] == rest[1..];
        assert |rest| > 1 ==> rest[0] + [sep] + JoinWith(rest[1..], sep) == JoinWith(rest, sep);
        parts
  }

  lemma {:induction false} SplitNoSeparator(w: string, sep: char)
    requires sep !in w
    ensures Split(w, sep) == [w]
    decreases |w|
  {
    if |w| > 0 {
      SplitNoSeparator(w[1..], sep);
      assert [w[0]] + w[1..] == w;
    }
  }

  lemma {:induction false} SplitCons(w: string, rest: string, sep: char)
    requires sep !in w
    ensures Split(w + [sep] + rest, sep) == [w] + Split(rest, sep)
    decreases |w|
  {
    var s := w + [sep] + rest;
    if |w| == 0 {
      assert s[1..] == rest;
    } else {
      assert s[1..] == w[1..] + [sep] + rest;
      SplitCons(w[1..], rest, sep);
      assert [w[0]] + w[1..] == w;
    }
  }

  /** `split` undoes `join` when no part holds the separator. */
  lemma {:induction false} SplitJoin(parts: seq<string>, sep: char)
    requires |parts| >= 1
    requires forall k :: 0 <= k < |parts| ==> sep !in parts[k]
    ensures Split(JoinWith(parts, sep), sep) == parts
    decreases |parts|
  {
    if |parts| == 1 {
      SplitNoSeparator(parts[0], sep);
    } else {
      SplitJoin(parts[1..], sep);
      SplitCons(parts[0], JoinWith(parts[1..], sep), sep);
      assert [parts[0]] + parts[1..] == parts;
    }
  }
}
