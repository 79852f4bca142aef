/** Path joining as `std::path::Path::join` does it on a Unix host, where `/` is the only
    separator. Paths are plain strings; nothing here touches a file system. */
module Paths {
  import opened Strings

  /** A path is absolute when it starts at the root. */
  predicate IsAbsolute(path: string) {
    |path| > 0 && path[0] == '/'
  }

  /** `base.join(rel)`: an absolute `rel` replaces `base`; otherwise `rel` is appended,
      after a separator unless `base` is empty or already ends with one. */
  function JoinPath(base: string, rel: string): (path: string)
    ensures EndsWith(path, rel)
    ensures IsAbsolute(rel) ==> path == rel
    ensures !IsAbsolute(rel) ==> StartsWith(path, base) && |base| + |rel| <= |path| <= |base| + 1 + |rel|
    ensures !IsAbsolute(rel) && |path| == |base| + 1 + |rel| ==> path[|base|] == '/'
  {
    if IsAbsolute(rel) then rel
    else if |base| == 0 || base[|base| - 1] == '/' then base + rel
    else base + "/" + rel
  }

  /** A non-empty base that does not end with a separator and a relative path are joined
      with exactly one separator. */
  lemma JoinPathRelative(base: string, rel: string)
    requires |base| > 0 && base[|base| - 1] != '/'
    requires !IsAbsolute(rel)
    ensures JoinPath(base, rel) == base + "/" + rel
  {
  }

  /** An empty base, or one that already ends with a separator, gets no separator added
      before a relative path. */
  lemma JoinPathAfterSeparator(base: string, rel: string)
    requires |base| == 0 || base[|base| - 1] == '/'
    requires !IsAbsolute(rel)
    ensures JoinPath(base, rel) == base + rel
  {
  }

  /** Under such a base, different relative paths give different joined paths. */
  lemma JoinPathInjective(base: string, a: string, b: string)
    requires |base| > 0 && base[|base| - 1] != '/'
    requires !IsAbsolute(a) && !IsAbsolute(b)
    requires JoinPath(base, a) == JoinPath(base, b)
    ensures a == b
  {
    var p := JoinPath(base, a);
    assert a == p[|base| + 1..];
  }
}
