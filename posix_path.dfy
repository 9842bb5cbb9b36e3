/** Node's path functions the core calls, on a POSIX platform where path is
    path.posix: normalize, resolve (for an absolute base), extname and dirname.
    Everything here is syntactic: no filesystem access. */
module PosixPath {
  import opened Wrappers
  import opened Js

  predicate IsAbsolute(p: string) { |p| > 0 && p[0] == '/' }

  /** The pieces of s between '/' characters, as s.split("/") returns them. */
  function Split(s: string): (r: seq<string>)
    ensures |r| >= 1
    ensures forall i :: 0 <= i < |r| ==> '/' !in r[i]
    decreases |s|
  {
    match IndexOf(s, '/')
    case None => [s]
    case Some(i) => [s[..i]] + Split(s[i + 1..])
  }

  /** segs.join("/") */
  function Join(segs: seq<string>): string
  {
    if segs == [] then "" else if |segs| == 1 then segs[0] else segs[0] + "/" + Join(segs[1..])
  }

  /** A segment that names a directory entry: not empty, not "." or "..", no separator. */
  predicate IsPlain(seg: string) {
    seg != "" && seg != "." && seg != ".." && '/' !in seg
  }

  /** One step of normalizeString: empty and "." segments vanish, ".." cancels the
      previous segment unless that is itself ".."; above the root a ".." is kept
      only when the path is relative. */
  function Push(stack: seq<string>, seg: string, aboveRoot: bool): seq<string>
  {
    if seg == "" || seg == "." then stack
    else if seg == ".." then
      if |stack| > 0 && stack[|stack| - 1] != ".." then stack[..|stack| - 1]
      else if aboveRoot then stack + [".."]
      else stack
    else stack + [seg]
  }

  function Fold(stack: seq<string>, segs: seq<string>, aboveRoot: bool): seq<string>
    decreases |segs|
  {
    if segs == [] then stack else Fold(Push(stack, segs[0], aboveRoot), segs[1..], aboveRoot)
  }

  /** Node's internal normalizeString with '/' as separator. */
  function NormalizeString(p: string, aboveRoot: bool): string
  {
    Join(Fold([], Split(p), aboveRoot))
  }

  /** path.posix.normalize */
  function Normalize(p: string): string
  {
    if p == "" then "."
    else
      var absolute := p[0] == '/';
      var trailing := p[|p| - 1] == '/';
      var body := NormalizeString(p, !absolute);
      if body == "" then (if absolute then "/" else if trailing then "./" else ".")
      else (if absolute then "/" else "") + body + (if trailing then "/" else "")
  }

  /** path.posix.resolve(base, p) when base is absolute (so the working directory is
      never consulted); path.resolve(base) is Resolve(base, ""). */
  function Resolve(base: string, p: string): string
    requires IsAbsolute(base)
  {
    var joined := if p == "" then base + "/" else if p[0] == '/' then p + "/" else base + "/" + p + "/";
    "/" + NormalizeString(joined, false)
  }

  /** The last segment of p once trailing separators are dropped. */
  function LastSegment(p: string): string
  {
    if p != [] && p[|p| - 1] == '/' then LastSegment(p[..|p| - 1])
    else match LastIndexOf(p, '/')
      case None => p
      case Some(i) => p[i + 1..]
  }

  /** path.posix.extname: from the last '.' of the last segment, unless that dot
      starts the segment or the segment is "..". */
  function Extname(p: string): string
  {
    var b := LastSegment(p);
    match LastIndexOf(b, '.')
    case None => ""
    case Some(d) => if d == 0 || b == ".." then "" else b[d..]
  }

  /** The scan of path.posix.dirname: the index of the last separator that has a
      non-separator after it, looking at indices 1 .. i. */
  function DirEnd(p: string, i: int, matchedSlash: bool): (r: Option<nat>)
    requires i < |p|
    ensures r.Some? ==> 1 <= r.value <= i
    decreases i
  {
    if i < 1 then None
    else if p[i] == '/' then (if !matchedSlash then Some(i) else DirEnd(p, i - 1, matchedSlash))
    else DirEnd(p, i - 1, false)
  }

  /** path.posix.dirname */
  function Dirname(p: string): string
  {
    if p == "" then "."
    else
      var hasRoot := p[0] == '/';
      match DirEnd(p, |p| - 1, true)
      case None => if hasRoot then "/" else "."
      case Some(end) => if hasRoot && end == 1 then "//" else p[..end]
  }

  // ---------------------------------------------------------------------------
  // Structure of normalised paths

  /** A stack that normalizeString can build: plain segments after a run of "..",
      and no ".." at all when the path is absolute. */
  predicate WellFormed(stack: seq<string>, aboveRoot: bool) {
    && (forall i :: 0 <= i < |stack| ==> stack[i] == ".." || IsPlain(stack[i]))
    && (forall i, j :: 0 <= i < j < |stack| && stack[j] == ".." ==> stack[i] == "..")
    && (!aboveRoot ==> forall i :: 0 <= i < |stack| ==> stack[i] != "..")
  }

  lemma {:induction false} FoldWellFormed(stack: seq<string>, segs: seq<string>, aboveRoot: bool)
    requires WellFormed(stack, aboveRoot)
    requires forall i :: 0 <= i < |segs| ==> '/' !in segs[i]
    ensures WellFormed(Fold(stack, segs, aboveRoot), aboveRoot)
    decreases |segs|
  {
    if segs != [] {
      FoldWellFormed(Push(stack, segs[0], aboveRoot), segs[1..], aboveRoot);
    }
  }

  /** Every segment normalizeString keeps is plain or "..", the ".." ones come first,
      and there are none in an absolute path. */
  lemma NormalizedSegments(p: string, aboveRoot: bool)
    ensures WellFormed(Fold([], Split(p), aboveRoot), aboveRoot)
  {
    FoldWellFormed([], Split(p), aboveRoot);
  }

  lemma FirstSlash(s: string, i: nat)
    requires i < |s| && s[i] == '/'
    requires forall k :: 0 <= k < i ==> s[k] != '/'
    ensures IndexOf(s, '/') == Some(i)
  {
  }

  lemma {:induction false} SplitAppend(a: string, b: string)
    ensures Split(a + "/" + b) == Split(a) + Split(b)
    decreases |a|
  {
    var s := a + "/" + b;
    match IndexOf(a, '/')
    case None =>
      FirstSlash(s, |a|);
      assert s[..|a|] == a && s[|a| + 1..] == b;
    case Some(i) =>
      FirstSlash(s, i);
      assert s[..i] == a[..i];
      assert s[i + 1..] == a[i + 1..] + "/" + b;
      SplitAppend(a[i + 1..], b);
  }

  lemma SplitEmpty()
    ensures Split("") == [""]
  {
    assert IndexOf("", '/') == None;
  }

  /** A relative path without a trailing separator normalises to its
      normalizeString (when that is not empty). */
  lemma NormalizeRelative(p: string)
    requires p != "" && p[0] != '/' && p[|p| - 1] != '/' && NormalizeString(p, true) != ""
    ensures Normalize(p) == NormalizeString(p, true)
  {
    var body := NormalizeString(p, true);
    assert "" + body + "" == body;
  }

  lemma {:induction false} SplitJoin(segs: seq<string>)
    requires segs != []
    requires forall i :: 0 <= i < |segs| ==> '/' !in segs[i]
    ensures Split(Join(segs)) == segs
  {
    if |segs| == 1 {
      assert IndexOf(segs[0], '/') == None;
    } else {
      SplitAppend(segs[0], Join(segs[1..]));
      assert IndexOf(segs[0], '/') == None;
      SplitJoin(segs[1..]);
    }
  }

  lemma {:induction false} JoinAppend(a: seq<string>, b: seq<string>)
    requires a != [] && b != []
    ensures Join(a + b) == Join(a) + "/" + Join(b)
  {
    if |a| == 1 {
      assert (a + b)[1..] == b;
    } else {
      assert (a + b)[1..] == a[1..] + b;
      JoinAppend(a[1..], b);
    }
  }

  lemma {:induction false} FoldAppend(stack: seq<string>, x: seq<string>, y: seq<string>, aboveRoot: bool)
    ensures Fold(stack, x + y, aboveRoot) == Fold(Fold(stack, x, aboveRoot), y, aboveRoot)
    decreases |x|
  {
    if x == [] {
      assert x + y == y;
    } else {
      assert (x + y)[0] == x[0] && (x + y)[1..] == x[1..] + y;
      FoldAppend(Push(stack, x[0], aboveRoot), x[1..], y, aboveRoot);
    }
  }

  lemma {:induction false} FoldPlain(stack: seq<string>, segs: seq<string>, aboveRoot: bool)
    requires forall i :: 0 <= i < |segs| ==> IsPlain(segs[i])
    ensures Fold(stack, segs, aboveRoot) == stack + segs
    decreases |segs|
  {
    if segs != [] {
      FoldPlain(stack + [segs[0]], segs[1..], aboveRoot);
      assert stack + [segs[0]] + segs[1..] == stack + segs;
    }
  }

  lemma JoinStart(segs: seq<string>)
    requires segs != [] && segs[0] != ""
    ensures Join(segs) != "" && Join(segs)[0] == segs[0][0]
  {
  }

  // ---------------------------------------------------------------------------
  // Resolving below a directory

  /** The segments normalisation keeps from a path without "..": all but the empty
      and "." ones. */
  function Kept(segs: seq<string>): (r: seq<string>)
    ensures forall i :: 0 <= i < |r| ==> r[i] != "" && r[i] != "."
  {
    if segs == [] then []
    else (if segs[0] == "" || segs[0] == "." then [] else [segs[0]]) + Kept(segs[1..])
  }

  lemma {:induction false} KeptMembers(segs: seq<string>)
    ensures forall i :: 0 <= i < |Kept(segs)| ==> Kept(segs)[i] in segs
  {
    if segs != [] {
      KeptMembers(segs[1..]);
      var head := if segs[0] == "" || segs[0] == "." then [] else [segs[0]];
      forall i | 0 <= i < |Kept(segs)| ensures Kept(segs)[i] in segs {
        if i >= |head| {
          assert Kept(segs)[i] == Kept(segs[1..])[i - |head|];
          assert Kept(segs[1..])[i - |head|] in segs[1..];
        }
      }
    }
  }

  lemma {:induction false} KeptAppend(a: seq<string>, b: seq<string>)
    ensures Kept(a + b) == Kept(a) + Kept(b)
  {
    if a == [] {
      assert a + b == b;
    } else {
      assert (a + b)[0] == a[0] && (a + b)[1..] == a[1..] + b;
      KeptAppend(a[1..], b);
    }
  }

  lemma {:induction false} KeptPlain(segs: seq<string>)
    requires forall i :: 0 <= i < |segs| ==> IsPlain(segs[i])
    ensures Kept(segs) == segs
  {
    if segs != [] {
      KeptPlain(segs[1..]);
    }
  }

  lemma {:induction false} FoldWithoutDots(stack: seq<string>, segs: seq<string>, aboveRoot: bool)
    requires forall i :: 0 <= i < |segs| ==> segs[i] != ".."
    ensures Fold(stack, segs, aboveRoot) == stack + Kept(segs)
    decreases |segs|
  {
    if segs != [] {
      FoldWithoutDots(Push(stack, segs[0], aboveRoot), segs[1..], aboveRoot);
    }
  }

  lemma SplitTrailing(w: string)
    ensures Split(w + "/") == Split(w) + [""]
  {
    SplitAppend(w, "");
    assert w + "/" + "" == w + "/";
    SplitEmpty();
  }

  lemma SplitLeading(x: string)
    ensures Split("/" + x) == [""] + Split(x)
  {
    SplitAppend("", x);
    assert "" + "/" + x == "/" + x;
    SplitEmpty();
  }

  lemma SplitThree(x: string, r: string)
    ensures Split("/" + x + "/" + r + "/") == [""] + Split(x) + Split(r) + [""]
  {
    SplitTrailing("/" + x + "/" + r);
    SplitAppend("/" + x, r);
    SplitLeading(x);
  }

  lemma KeptOfEmpty()
    ensures Kept([""]) == []
  {
    assert [""][1..] == [];
  }

  lemma NoParentAppend(a: seq<string>, b: seq<string>)
    requires forall i :: 0 <= i < |a| ==> a[i] != ".."
    requires forall i :: 0 <= i < |b| ==> b[i] != ".."
    ensures forall i :: 0 <= i < |a + b| ==> (a + b)[i] != ".."
  {
    forall i | 0 <= i < |a + b| ensures (a + b)[i] != ".." {
      if i >= |a| {
        assert (a + b)[i] == b[i - |a|];
      }
    }
  }

  lemma EmptyAppend<T>(a: seq<T>)
    ensures [] + a == a && a + [] == a
  {
  }

  lemma ResolveRoot()
    ensures Resolve("/", "") == "/"
  {
    var e := "" + "/" + "";
    var ee := "" + "/" + e;
    SplitEmpty();
    SplitAppend("", "");
    SplitAppend("", e);
    assert Split(ee) == ["", "", ""];
    assert ee == "/" + "/";
    var segs := ["", "", ""];
    assert Fold([], segs, false) == [] by {
      assert Push([], "", false) == [];
      assert segs[1..] == ["", ""] && segs[1..][1..] == [""] && segs[1..][1..][1..] == [];
    }
  }

  lemma {:induction false} JoinEnd(segs: seq<string>)
    requires segs != [] && segs[|segs| - 1] != ""
    ensures Join(segs) != "" && Join(segs)[|Join(segs)| - 1] == segs[|segs| - 1][|segs[|segs| - 1]| - 1]
  {
    if |segs| > 1 {
      assert segs[1..][|segs[1..]| - 1] == segs[|segs| - 1];
      JoinEnd(segs[1..]);
    }
  }

  lemma JoinHead(segs: seq<string>)
    requires segs != []
    ensures var p := Join(segs); |segs[0]| <= |p| && p[..|segs[0]|] == segs[0]
    ensures |segs| == 1 ==> Join(segs) == segs[0]
    ensures |segs| > 1 ==> |Join(segs)| > |segs[0]| && Join(segs)[|segs[0]|] == '/'
  {
    if |segs| > 1 {
      var p := Join(segs);
      assert p == segs[0] + "/" + Join(segs[1..]);
    }
  }

  lemma NormalizeStringPlain(segs: seq<string>, aboveRoot: bool)
    requires segs != [] && forall i :: 0 <= i < |segs| ==> IsPlain(segs[i])
    ensures NormalizeString(Join(segs), aboveRoot) == Join(segs)
  {
    assert Split(Join(segs)) == segs by {
      SplitJoin(segs);
    }
    assert Fold([], segs, aboveRoot) == segs by {
      FoldPlain([], segs, aboveRoot);
      assert [] + segs == segs;
    }
  }

  lemma NormalizeAbsolute(p: string)
    requires IsAbsolute(p)
    ensures StartsWith(Normalize(p), "/")
  {
    var body := NormalizeString(p, false);
    var suffix := if p[|p| - 1] == '/' then "/" else "";
    if body != "" {
      assert Normalize(p) == "/" + (body + suffix);
    }
  }

  /** Joined plain segments split back into themselves, or into [""] when none. */
  lemma SplitOfJoin(base: seq<string>)
    requires forall i :: 0 <= i < |base| ==> IsPlain(base[i])
    ensures Kept(Split(Join(base))) == base
    ensures forall i :: 0 <= i < |Split(Join(base))| ==> Split(Join(base))[i] != ".."
  {
    if base == [] {
      SplitEmpty();
      KeptOfEmpty();
    } else {
      SplitJoin(base);
      KeptPlain(base);
    }
  }

  /** Resolving a path without ".." segments below "/" + Join(base) appends the
      segments it keeps to base. */
  lemma ResolveKept(base: seq<string>, r: string)
    requires forall i :: 0 <= i < |base| ==> IsPlain(base[i])
    requires r != "" && r[0] != '/'
    requires forall i :: 0 <= i < |Split(r)| ==> Split(r)[i] != ".."
    ensures Resolve("/" + Join(base), r) == "/" + Join(base + Kept(Split(r)))
  {
    var head := Split(Join(base));
    var all := [""] + head + Split(r) + [""];
    assert Split("/" + Join(base) + "/" + r + "/") == all by {
      SplitThree(Join(base), r);
    }
    SplitOfJoin(base);
    assert forall i :: 0 <= i < |all| ==> all[i] != ".." by {
      NoParentAppend([""], head);
      NoParentAppend([""] + head, Split(r));
      NoParentAppend([""] + head + Split(r), [""]);
    }
    var kept := base + Kept(Split(r));
    assert Fold([], all, false) == kept by {
      FoldWithoutDots([], all, false);
      calc {
        Kept(all);
        { KeptAppend([""] + head + Split(r), [""]); KeptOfEmpty(); }
        Kept([""] + head + Split(r)) + [];
        { KeptAppend([""] + head, Split(r)); }
        Kept([""] + head) + Kept(Split(r)) + [];
        { KeptAppend([""], head); KeptOfEmpty(); EmptyAppend(base); }
        base + Kept(Split(r)) + [];
        { EmptyAppend(kept); }
        kept;
      }
      EmptyAppend(Kept(all));
    }
    var joined := "/" + Join(base) + "/" + r + "/";
    assert Resolve("/" + Join(base), r) == "/" + NormalizeString(joined, false);
  }

  lemma SplitAround(x: string)
    ensures Split("/" + x + "/") == [""] + Split(x) + [""]
  {
    SplitTrailing("/" + x);
    SplitLeading(x);
  }

  lemma KeptAround(segs: seq<string>)
    ensures Kept([""] + segs + [""]) == Kept(segs)
  {
    calc {
      Kept([""] + segs + [""]);
      { KeptAppend([""] + segs, [""]); KeptOfEmpty(); }
      Kept([""] + segs) + [];
      { KeptAppend([""], segs); KeptOfEmpty(); EmptyAppend(Kept(segs)); }
      Kept(segs) + [];
      { EmptyAppend(Kept(segs)); }
      Kept(segs);
    }
  }

  lemma NoParentAround(segs: seq<string>)
    requires forall i :: 0 <= i < |segs| ==> segs[i] != ".."
    ensures forall i :: 0 <= i < |[""] + segs + [""]| ==> ([""] + segs + [""])[i] != ".."
  {
    NoParentAppend([""], segs);
    NoParentAppend([""] + segs, [""]);
  }

  lemma FoldAround(base: seq<string>)
    requires forall i :: 0 <= i < |base| ==> IsPlain(base[i])
    ensures Fold([], Split("/" + Join(base) + "/"), false) == base
  {
    var head := Split(Join(base));
    var all := [""] + head + [""];
    assert Split("/" + Join(base) + "/") == all by {
      SplitAround(Join(base));
    }
    assert Kept(head) == base && forall i :: 0 <= i < |head| ==> head[i] != ".." by {
      SplitOfJoin(base);
    }
    assert forall i :: 0 <= i < |all| ==> all[i] != ".." by {
      NoParentAround(head);
    }
    assert Fold([], all, false) == [] + Kept(all) by {
      FoldWithoutDots([], all, false);
    }
    assert Kept(all) == base by {
      KeptAround(head);
    }
    EmptyAppend(base);
  }

  /** Resolving "" below "/" + Join(base) gives that directory back. */
  lemma ResolveAlone(base: seq<string>)
    requires forall i :: 0 <= i < |base| ==> IsPlain(base[i])
    ensures Resolve("/" + Join(base), "") == "/" + Join(base)
  {
    FoldAround(base);
  }
}
