/** Relative paths made of plain segments, and where path.posix.resolve puts them
    below a directory: the facts the sandboxed join of the tool helpers rests on. */
module PlainPaths {
  import opened Js
  import opened PosixPath

  /** A relative path of plain segments, possibly with one trailing separator. */
  predicate PlainPath(r: string) {
    var segs := Split(r);
    forall i :: 0 <= i < |segs| ==> IsPlain(segs[i]) || (0 < i == |segs| - 1 && segs[i] == "")
  }

  /** The segments of a plain path, without its trailing empty one. */
  lemma PlainPathSegments(r: string)
    requires PlainPath(r)
    ensures var s := Kept(Split(r));
      s != [] && (forall i :: 0 <= i < |s| ==> IsPlain(s[i])) && Join(s) == NormalizeString(r, false)
      && Fold([], Split(r), false) == s
  {
    var segs := Split(r);
    assert IsPlain(segs[0]);
    FoldWithoutDots([], segs, false);
    var s := Kept(segs);
    assert s[0] == segs[0] by {
      assert segs == [segs[0]] + segs[1..];
      KeptAppend([segs[0]], segs[1..]);
    }
    assert Fold([], segs, false) == s;
    KeptMembers(segs);
    forall i | 0 <= i < |s| ensures IsPlain(s[i]) {
      var k :| 0 <= k < |segs| && segs[k] == s[i];
    }
  }

  lemma PlainPathStart(r: string)
    requires PlainPath(r)
    ensures r != "" && r[0] != '/'
  {
    var segs := Split(r);
    assert IsPlain(segs[0]);
    match IndexOf(r, '/')
    case None =>
    case Some(i) => assert segs[0] == r[..i];
  }

  /** path.resolve(base) is "/" followed by the base's plain segments. */
  lemma ResolvedBase(baseDir: string)
    requires IsAbsolute(baseDir)
    ensures var base := Fold([], Split(baseDir + "/"), false);
      Resolve(baseDir, "") == "/" + Join(base) && forall i :: 0 <= i < |base| ==> IsPlain(base[i])
  {
    NormalizedSegments(baseDir + "/", false);
  }

  lemma ResolvePlainSegments(base: seq<string>, r: string)
    requires base != [] && forall i :: 0 <= i < |base| ==> IsPlain(base[i])
    requires PlainPath(r)
    ensures Resolve("/" + Join(base), r) == "/" + Join(base) + "/" + Join(Kept(Split(r)))
  {
    var s := Kept(Split(r));
    assert s != [] by {
      PlainPathSegments(r);
    }
    assert Resolve("/" + Join(base), r) == "/" + Join(base + s) by {
      PlainPathStart(r);
      ResolveKept(base, r);
    }
    assert Join(base + s) == Join(base) + "/" + Join(s) by {
      JoinAppend(base, s);
    }
    ConcatAssoc("/", Join(base) + "/", Join(s));
    ConcatAssoc("/", Join(base), "/");
  }

  /** Resolving a plain path against "/" + base appends its segments to base. */
  lemma ResolvePlainBelow(base: seq<string>, r: string)
    requires base != [] && forall i :: 0 <= i < |base| ==> IsPlain(base[i])
    requires PlainPath(r)
    ensures Resolve("/" + Join(base), r) == "/" + Join(base) + "/" + NormalizeString(r, false)
    ensures NormalizeString(r, false) != ""
  {
    var s := Kept(Split(r));
    assert s != [] && Join(s) == NormalizeString(r, false) && Join(s) != "" by {
      PlainPathSegments(r);
      JoinStart(s);
    }
    ResolvePlainSegments(base, r);
  }
}
