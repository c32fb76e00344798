/**
 * The few string operations of the host platform that the save hook and the
 * eligibility filter rely on: `path.extname`, with a basename helper for
 * POSIX paths (`path.basename` itself is not called);
 * `String.prototype.replace` with a string pattern and an empty replacement;
 * and `substring(1)`.
 */
module PathText {
  import opened Wrappers

  /** Index of the last `c` in `s`, or -1 when `s` has none. */
  function LastIndexOf(s: string, c: char): (r: int)
    ensures -1 <= r < |s|
    ensures r >= 0 ==> s[r] == c
    ensures forall k :: r < k < |s| ==> s[k] != c
  {
    if |s| == 0 then -1
    else if s[|s| - 1] == c then |s| - 1
    else LastIndexOf(s[..|s| - 1], c)
  }

  /** The last component of a POSIX path: everything after the last '/'. */
  function Basename(p: string): (b: string)
    ensures |b| <= |p| && b == p[|p| - |b|..]
    ensures forall k :: 0 <= k < |b| ==> b[k] != '/'
    ensures |b| < |p| ==> p[|p| - |b| - 1] == '/'
  {
    p[LastIndexOf(p, '/') + 1..]
  }

  /**
   * `path.extname`: the last component's suffix that starts at its last '.',
   * or "" when that component has no '.' or only a leading one (".bashrc").
   */
  function Extname(p: string): (e: string)
    ensures e == [] || (e[0] == '.' && forall k :: 0 < k < |e| ==> e[k] != '.')
    ensures forall k :: 0 <= k < |e| ==> e[k] != '/'
    ensures e != [] ==> |e| < |Basename(p)|
    ensures e == Basename(p)[|Basename(p)| - |e|..]
  {
    var b := Basename(p);
    var d := LastIndexOf(b, '.');
    if d <= 0 then "" else b[d..]
  }

  lemma {:induction false} LastIndexOfAppendAbsent(s: string, t: string, c: char)
    requires forall k :: 0 <= k < |t| ==> t[k] != c
    ensures LastIndexOf(s + t, c) == LastIndexOf(s, c)
    decreases |t|
  {
    if t == [] {
      assert s + t == s;
    } else {
      var u := s + t;
      assert u[|u| - 1] == t[|t| - 1];
      assert u[..|u| - 1] == s + t[..|t| - 1];
      LastIndexOfAppendAbsent(s, t[..|t| - 1], c);
    }
  }

  lemma LastIndexOfAppendLeading(s: string, t: string, c: char)
    requires |t| > 0 && t[0] == c
    requires forall k :: 0 < k < |t| ==> t[k] != c
    ensures LastIndexOf(s + t, c) == |s|
  {
    var u := s + t;
    assert u[|s|] == c;
  }

  /**
   * A name `stem + ext` whose stem does not end the directory part has
   * extension `ext`, provided `ext` is a single dotted suffix.
   */
  lemma ExtnameOfSuffixed(stem: string, ext: string)
    requires |stem| > 0 && stem[|stem| - 1] != '/'
    requires |ext| > 0 && ext[0] == '.'
    requires forall k :: 0 < k < |ext| ==> ext[k] != '.' && ext[k] != '/'
    ensures Extname(stem + ext) == ext
  {
    var p := stem + ext;
    LastIndexOfAppendAbsent(stem, ext, '/');
    var i := LastIndexOf(stem, '/') + 1;
    var bs := stem[i..];
    assert Basename(p) == bs + ext;
    LastIndexOfAppendLeading(bs, ext, '.');
    assert (bs + ext)[|bs|..] == ext;
  }

  /** `s` holds `pat` at position `k`. */
  ghost predicate OccursAt(s: string, pat: string, k: int) {
    0 <= k && k + |pat| <= |s| && s[k..k + |pat|] == pat
  }

  /** The first position at or after `i` where `pat` occurs in `s`, or -1. */
  function IndexOfFrom(s: string, pat: string, i: nat): (r: int)
    ensures r == -1 || (i <= r && OccursAt(s, pat, r))
    ensures forall k :: i <= k && (r == -1 || k < r) ==> !OccursAt(s, pat, k)
    decreases |s| - i
  {
    if i + |pat| > |s| then -1
    else if s[i..i + |pat|] == pat then i
    else IndexOfFrom(s, pat, i + 1)
  }

  /** `s.replace(pat, '')`: the first occurrence of `pat` removed, if any. */
  function RemoveFirst(s: string, pat: string): (r: string)
    ensures (forall k :: !OccursAt(s, pat, k)) ==> r == s
    ensures forall i :: OccursAt(s, pat, i) && (forall k :: 0 <= k < i ==> !OccursAt(s, pat, k))
                        ==> r == s[..i] + s[i + |pat|..]
  {
    var i := IndexOfFrom(s, pat, 0);
    if i == -1 then s else s[..i] + s[i + |pat|..]
  }

  /** `s.substring(1)`. */
  function DropFirst(s: string): (r: string)
    ensures |s| == 0 ==> r == ""
    ensures |s| > 0 ==> [s[0]] + r == s
  {
    if |s| == 0 then s else s[1..]
  }

  /**
   * The save hook's project-relative path: the project root's first
   * occurrence removed and the leading character dropped, or the path itself
   * when no project root was found (`root == None`).
   */
  function RelativePath(path: string, root: Option<string>): (r: string)
    ensures root.None? ==> r == path
    ensures root.Some? && IndexOfFrom(path, root.value, 0) == -1 ==> r == DropFirst(path)
    ensures root.Some? && (forall k :: !OccursAt(path, root.value, k)) ==> r == DropFirst(path)
    ensures root.Some? && IndexOfFrom(path, root.value, 0) >= 0 ==>
      var i := IndexOfFrom(path, root.value, 0);
      r == DropFirst(path[..i] + path[i + |root.value|..])
  {
    match root
    case None => path
    case Some(r) => DropFirst(RemoveFirst(path, r))
  }

  /** A file below the project root gets its path relative to that root. */
  lemma RelativePathUnderRoot(root: string, rel: string)
    ensures RelativePath(root + "/" + rel, Some(root)) == rel
  {
    var p := root + "/" + rel;
    assert p[0..|root|] == root;
    assert OccursAt(p, root, 0);
    assert IndexOfFrom(p, root, 0) == 0;
    assert RemoveFirst(p, root) == p[|root|..];
    assert p[|root|..] == "/" + rel;
  }
}
