/**
 * The part of Node's `path.extname` that the engine relies on: the extension of
 * the last segment of a '/'-separated path, taken from the last '.' of that
 * segment, and empty when the segment has no '.' or its only '.' is its first
 * character (a "dot file").
 */
module PathExt {
  import opened Wrappers

  /** The text after the last '/' of `p` (all of `p` when it has no '/'). */
  function LastSegment(p: string): (seg: string)
    ensures |seg| <= |p| && seg == p[|p| - |seg|..]
    ensures '/' !in seg
    ensures |seg| < |p| ==> p[|p| - |seg| - 1] == '/'
  {
    if p == [] then []
    else if p[|p| - 1] == '/' then []
    else
      var q := p[..|p| - 1];
      var s := LastSegment(q);
      assert p[|p| - |s| - 1..] == q[|q| - |s|..] + [p[|p| - 1]];
      s + [p[|p| - 1]]
  }

  /** The index of the last occurrence of `c` in `s`, if any. */
  function LastIndexOf(s: string, c: char): (r: Option<nat>)
    ensures r.None? ==> c !in s
    ensures r.Some? ==> r.value < |s| && s[r.value] == c && c !in s[r.value + 1..]
  {
    if s == [] then None
    else if s[|s| - 1] == c then Some(|s| - 1)
    else
      var r := LastIndexOf(s[..|s| - 1], c);
      assert s == s[..|s| - 1] + [s[|s| - 1]];
      if r.Some? then
        assert s[r.value + 1..] == s[..|s| - 1][r.value + 1..] + [s[|s| - 1]];
        r
      else r
  }

  /** True when no '.' of the last segment of `p` comes after that segment's first character. */
  predicate NoExtension(p: string) {
    var seg := LastSegment(p);
    forall k :: 0 < k < |seg| ==> seg[k] != '.'
  }

  /**
   * The extension of `p`: empty exactly when the last segment carries none,
   * otherwise a suffix of `p` that starts with its only '.', contains no '/'
   * and is preceded by a character of the same segment.
   */
  function Extname(p: string): (ext: string)
    ensures ext == [] <==> NoExtension(p)
    ensures ext != [] ==>
      && |ext| < |p| && ext == p[|p| - |ext|..]
      && ext[0] == '.' && '.' !in ext[1..] && '/' !in ext
      && p[|p| - |ext| - 1] != '/'
  {
    var seg := LastSegment(p);
    match LastIndexOf(seg, '.')
    case None => []
    case Some(i) =>
      if i == 0 then
        LeadingDotOnly(seg);
        []
      else
        DotSuffix(p, seg, i);
        seg[i..]
  }

  /** A segment whose last '.' is its first character has no '.' after it. */
  lemma LeadingDotOnly(seg: string)
    requires LastIndexOf(seg, '.') == Some(0)
    ensures forall k :: 0 < k < |seg| ==> seg[k] != '.'
  {
    forall k | 0 < k < |seg| ensures seg[k] != '.' {
      assert seg[k] == seg[1..][k - 1];
    }
  }

  /** The suffix of a '/'-free final part of a path from its last '.' is a suffix of the whole path. */
  lemma DotSuffix(p: string, seg: string, i: nat)
    requires |seg| <= |p| && seg == p[|p| - |seg|..] && '/' !in seg
    requires 0 < i < |seg| && seg[i] == '.' && '.' !in seg[i + 1..]
    ensures var ext := seg[i..];
      && |ext| < |p| && ext == p[|p| - |ext|..]
      && ext[0] == '.' && '.' !in ext[1..] && '/' !in ext
      && p[|p| - |ext| - 1] != '/'
  {
    var o := |p| - |seg|;
    var ext := seg[i..];
    assert ext == p[o + i..];
    assert ext[1..] == seg[i + 1..];
    assert p[o + i - 1] == seg[i - 1];
  }

  /** The extension is exactly ".css" when `p` ends in ".css" right after a character of its last segment. */
  lemma IsCssExtension(p: string)
    ensures Extname(p) == ".css" <==> |p| >= 5 && p[|p| - 4..] == ".css" && p[|p| - 5] != '/'
  {
    var ext := Extname(p);
    if |p| >= 5 && p[|p| - 4..] == ".css" && p[|p| - 5] != '/' {
      var seg := LastSegment(p);
      assert |seg| >= 5;
      assert seg[|seg| - 4] == '.';
      assert |ext| == 4;
    }
  }
}
