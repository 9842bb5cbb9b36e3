/** The shared tool helpers of src/tools/common.ts: tool result builders, the path
    guard (validation and sandboxed join), byte-budget truncation and content types. */
module Common {
  import opened Wrappers
  import opened Js
  import opened Utf16
  import opened PosixPath
  import opened PlainPaths
  import opened Errors

  // ---------------------------------------------------------------------------
  // Tool results

  /** A tool call result: text plus structured content, or an error. */
  datatype ToolResult<T> =
    | Success(text: string, content: T)
    | Failure(text: string, error: SerializedError)

  function SuccessResult<T>(text: string, content: T): (r: ToolResult<T>)
    ensures r.Success? && r.text == text && r.content == content
  {
    Success(text, content)
  }

  /** errorResult: normalise whatever was thrown, show its message, attach it serialised. */
  function ErrorResult<T>(error: Thrown): (r: ToolResult<T>)
    ensures r.Failure? && r.text == r.error.message
    ensures r.error == SerializeToolError(ToMcpToolError(error, "Tool execution failed"))
    ensures error.ToolFailure? ==> r.error.code == error.error.code && r.error.message == error.error.message
  {
    var normalized := ToMcpToolError(error, "Tool execution failed");
    Failure(normalized.message, SerializeToolError(normalized))
  }

  // ---------------------------------------------------------------------------
  // Path guard

  const RootReferenceMessage := "Path must reference a file under the shelf root"

  /** ensureRelativePath exactly as the source writes it. It lets "./" through
      (see RootReferenceSlipsThrough); EnsureRelativePath is the corrected guard. */
  function EnsureRelativePathAsWritten(input: string): (r: Result<string, ToolError>)
    ensures r.Err? ==> r.error.code == InputError && r.error.status == Some(400) && r.error.retryable == Some(false)
    ensures r.Ok? ==> r.value == Normalize(Trim(input))
    ensures r.Ok? ==> r.value !in {"", ".", ".."} && !StartsWith(r.value, "../") && !IsAbsolute(r.value)
  {
    var trimmed := Trim(input);
    if trimmed == "" then Err(InputFailure("Path is required"))
    else if '\\' in trimmed || '\0' in trimmed then Err(InputFailure("Path contains unsupported characters"))
    else
      var normalized := Normalize(trimmed);
      if normalized == "." || normalized == "" then Err(InputFailure(RootReferenceMessage))
      else if normalized == ".." || StartsWith(normalized, "../") || StartsWith(normalized, "/") then
        Err(InputFailure("Path traversal is not allowed"))
      else Ok(normalized)
  }

  /** ensureRelativePath with the root check completed: "./", the other normal form
      of the root, is refused like ".". This is the corrected guard of the finding
      on the root check; no handler uses it. */
  function EnsureRelativePath(input: string): (r: Result<string, ToolError>)
    ensures r.Err? ==> r.error.code == InputError && r.error.status == Some(400) && r.error.retryable == Some(false)
    ensures r.Ok? ==> r.value == Normalize(Trim(input))
    ensures r.Ok? ==> r.value !in {"", ".", "./", ".."} && !StartsWith(r.value, "../") && !IsAbsolute(r.value)
  {
    var trimmed := Trim(input);
    if trimmed == "" then Err(InputFailure("Path is required"))
    else if '\\' in trimmed || '\0' in trimmed then Err(InputFailure("Path contains unsupported characters"))
    else
      var normalized := Normalize(trimmed);
      if normalized == "." || normalized == "./" || normalized == "" then Err(InputFailure(RootReferenceMessage))
      else if normalized == ".." || StartsWith(normalized, "../") || StartsWith(normalized, "/") then
        Err(InputFailure("Path traversal is not allowed"))
      else Ok(normalized)
  }

  /** safeJoin for an absolute base directory: resolve the base, resolve the relative
      path against it, and accept only the base itself or a path below it. */
  function SafeJoin(baseDir: string, relativePath: string): (r: Result<string, ToolError>)
    requires IsAbsolute(baseDir)
    ensures r.Ok? ==> r.value == Resolve(baseDir, "") || StartsWith(r.value, Resolve(baseDir, "") + "/")
    ensures r.Ok? ==> r.value == Resolve(Resolve(baseDir, ""), relativePath)
    ensures r.Err? ==> r.error.code == LocalIoError && r.error.status == None && r.error.retryable == Some(false)
    ensures r.Err? ==> r.error.message == "Unsafe output path: " + relativePath
  {
    var resolvedBase := Resolve(baseDir, "");
    var candidate := Resolve(resolvedBase, relativePath);
    if candidate != resolvedBase && !StartsWith(candidate, resolvedBase + "/") then
      Err(ToolError(LocalIoError, "Unsafe output path: " + relativePath, None, Undefined, Some(false)))
    else Ok(candidate)
  }

  /** Backslashes and NUL survive trimming, so they are refused wherever they stand. */
  lemma BadInputRejected(input: string)
    requires Trim(input) == "" || '\\' in input || '\0' in input
    ensures EnsureRelativePath(input).Err? && EnsureRelativePathAsWritten(input).Err?
  {
    if Trim(input) != "" {
      var k :| 0 <= k < |input| && (input[k] == '\\' || input[k] == '\0');
      TrimKeeps(input, k);
    }
  }

  /** A normalised stack of two or more segments that starts with ".." renders
      with a leading "../". */
  lemma JoinLeadingDotDot(stack: seq<string>, suffix: string)
    requires |stack| > 1 && stack[0] == ".."
    ensures StartsWith(Join(stack) + suffix, "../")
  {
    var rest := Join(stack[1..]) + suffix;
    assert Join(stack) + suffix == "../" + rest;
    assert ("../" + rest)[..3] == "../";
  }

  /** A well-formed stack that does not start with ".." has plain segments only. */
  lemma PlainStack(stack: seq<string>)
    requires WellFormed(stack, true) && stack != [] && stack[0] != ".."
    ensures forall i :: 0 <= i < |stack| ==> IsPlain(stack[i])
  {
    forall i | 0 <= i < |stack|
      ensures IsPlain(stack[i])
    {
      assert stack[0] != "..";
    }
  }

  /** A stack that starts with ".." renders as ".." or with a leading "../". */
  lemma ClimbingStack(stack: seq<string>, suffix: string)
    requires stack != [] && (suffix == "" || suffix == "/")
    ensures stack[0] == ".." ==> Join(stack) + suffix == ".." || StartsWith(Join(stack) + suffix, "../")
  {
    if |stack| > 1 && stack[0] == ".." {
      JoinLeadingDotDot(stack, suffix);
    } else if |stack| == 1 && suffix == "/" && stack[0] == ".." {
      assert Join(stack) + suffix == "../";
    }
  }

  /** A relative path that normalises to neither the root nor something above it
      normalises to a plain path. */
  lemma NormalizeRelativePlain(t: string)
    requires t != "" && t[0] != '/'
    requires Normalize(t) !in {"", ".", "./", ".."} && !StartsWith(Normalize(t), "../")
    ensures PlainPath(Normalize(t))
  {
    var stack := Fold([], Split(t), true);
    var body := Join(stack);
    var suffix := if t[|t| - 1] == '/' then "/" else "";
    assert body != "";
    assert Normalize(t) == body + suffix;
    NormalizedSegments(t, true);
    assert stack != [];
    ClimbingStack(stack, suffix);
    PlainStack(stack);
    SplitJoin(stack);
    if suffix == "/" {
      assert Normalize(t) == body + "/" + "";
      SplitAppend(body, "");
      assert Split("") == [""];
    } else {
      assert Normalize(t) == body;
    }
  }

  /** What the corrected guard accepts is a plain relative path: no "." or ".."
      segment anywhere, no leading separator, at most one trailing separator. */
  lemma AcceptedIsPlainPath(input: string)
    requires EnsureRelativePath(input).Ok?
    ensures PlainPath(EnsureRelativePath(input).value)
  {
    var t := Trim(input);
    NormalizeRelativePlain(t);
  }

  /** Validation then join: a plain relative path joined to a base other than the
      root always lands strictly below the resolved base. */
  lemma JoinPlainPathBelowBase(baseDir: string, r: string)
    requires IsAbsolute(baseDir) && Resolve(baseDir, "") != "/"
    requires PlainPath(r)
    ensures SafeJoin(baseDir, r).Ok?
    ensures SafeJoin(baseDir, r).value == Resolve(baseDir, "") + "/" + NormalizeString(r, false)
    ensures NormalizeString(r, false) != ""
  {
    var base := Fold([], Split(baseDir + "/"), false);
    ResolvedBase(baseDir);
    var rb := Resolve(baseDir, "");
    assert base != [];
    ResolvePlainBelow(base, r);
    var rest := NormalizeString(r, false);
    assert (rb + "/" + rest)[..|rb + "/"|] == rb + "/";
  }

  /** With "/" as base every child is refused: the candidate never starts with "//". */
  lemma RootBaseRefusesChildren(relativePath: string)
    ensures SafeJoin("/", relativePath).Ok? ==> SafeJoin("/", relativePath).value == "/"
  {
    ResolveRoot();
    var p := relativePath;
    var joined := if p == "" then "/" + "/" else if p[0] == '/' then p + "/" else "/" + "/" + p + "/";
    var stack := Fold([], Split(joined), false);
    NormalizedSegments(joined, false);
    if stack != [] {
      JoinStart(stack);
      assert IsPlain(stack[0]);
      assert Join(stack)[0] != '/';
      var candidate := "/" + Join(stack);
      assert candidate[1] != '/';
      assert !StartsWith(candidate, "//");
      assert candidate != "/";
    }
  }

  // ---------------------------------------------------------------------------
  // The source's own examples, and the root reference the guard misses

  lemma ClimbPrefix(p: string)
    ensures StartsWith(p, "../") <==> |p| >= 3 && p[0] == '.' && p[1] == '.' && p[2] == '/'
  {
    if |p| >= 3 && p[0] == '.' && p[1] == '.' && p[2] == '/' {
      assert p[..3] == "../";
    }
  }

  /** Paths whose first segment is plain are not a name for the root or the parent,
      and do not climb out. */
  lemma PlainJoinNotDotted(segs: seq<string>)
    requires segs != [] && IsPlain(segs[0])
    ensures var p := Join(segs); p !in {"", ".", "./", ".."} && !StartsWith(p, "../")
  {
    var p := Join(segs);
    var head := segs[0];
    JoinHead(segs);
    ClimbPrefix(p);
    assert forall k :: 0 <= k < |head| ==> p[k] == head[k] && head[k] != '/';
    if |head| == 1 {
      assert head[0] != '.' || |segs| > 1;
    } else if |head| == 2 {
      assert head[0] != '.' || head[1] != '.';
    }
  }

  /** Plain segments joined by '/' form a normalised relative path. */
  lemma PlainJoinNormal(segs: seq<string>)
    requires segs != [] && forall i :: 0 <= i < |segs| ==> IsPlain(segs[i])
    ensures var p := Join(segs); p != "" && p[0] != '/' && Normalize(p) == p
  {
    var p := Join(segs);
    assert NormalizeString(p, true) == p by {
      NormalizeStringPlain(segs, true);
    }
    assert p != "" && p[0] != '/' && p[|p| - 1] != '/' by {
      assert IsPlain(segs[0]) && IsPlain(segs[|segs| - 1]);
      JoinStart(segs);
      JoinEnd(segs);
    }
    NormalizeRelative(p);
  }

  /** A trimmed, normalised path that names neither the root nor anything above
      it is accepted unchanged. */
  lemma GuardAccepts(p: string)
    requires Trim(p) == p && Normalize(p) == p
    requires '\\' !in p && '\0' !in p
    requires p !in {"", ".", "./", ".."} && !StartsWith(p, "../") && !StartsWith(p, "/")
    ensures EnsureRelativePath(p) == Ok(p)
  {
  }

  lemma PlainJoinShape(segs: seq<string>)
    requires segs != [] && forall i :: 0 <= i < |segs| ==> IsPlain(segs[i])
    requires Unpadded(Join(segs))
    ensures var p := Join(segs);
      Trim(p) == p && Normalize(p) == p && p !in {"", ".", "./", ".."}
      && !StartsWith(p, "../") && !StartsWith(p, "/")
  {
    var p := Join(segs);
    TrimNoop(p);
    PlainJoinNormal(segs);
    assert IsPlain(segs[0]);
    PlainJoinNotDotted(segs);
  }

  /** Conversely to AcceptedIsPlainPath: plain segments joined by '/', with no
      backslash, NUL or surrounding whitespace, pass the guard unchanged. */
  lemma PlainJoinAccepted(segs: seq<string>)
    requires segs != [] && forall i :: 0 <= i < |segs| ==> IsPlain(segs[i])
    requires '\\' !in Join(segs) && '\0' !in Join(segs) && Unpadded(Join(segs))
    ensures EnsureRelativePath(Join(segs)) == Ok(Join(segs))
  {
    PlainJoinShape(segs);
    GuardAccepts(Join(segs));
  }

  /** Whatever trims to an absolute path is refused. */
  lemma AbsoluteRejected(input: string)
    requires IsAbsolute(Trim(input))
    ensures EnsureRelativePath(input).Err? && EnsureRelativePathAsWritten(input).Err?
  {
    NormalizeAbsolute(Trim(input));
  }

  lemma ClimbJoin(segs: seq<string>)
    requires segs != []
    ensures Join([".."] + segs) == "../" + Join(segs)
  {
    var all := [".."] + segs;
    assert all[1..] == segs;
    assert Join(all) == ".." + "/" + Join(segs);
    assert ".." + "/" == "../";
  }

  lemma ClimbSplit(segs: seq<string>)
    requires segs != [] && forall i :: 0 <= i < |segs| ==> IsPlain(segs[i])
    ensures Split(Join([".."] + segs)) == [".."] + segs
  {
    var all := [".."] + segs;
    forall i | 0 <= i < |all| ensures '/' !in all[i] {
      if i > 0 {
        assert all[i] == segs[i - 1];
      }
    }
    SplitJoin(all);
  }

  lemma ClimbFold(segs: seq<string>)
    requires forall i :: 0 <= i < |segs| ==> IsPlain(segs[i])
    ensures Fold([], [".."] + segs, true) == [".."] + segs
  {
    FoldAppend([], [".."], segs, true);
    assert Fold([], [".."], true) == [".."];
    FoldPlain([".."], segs, true);
  }

  lemma ClimbNormalString(segs: seq<string>)
    requires segs != [] && forall i :: 0 <= i < |segs| ==> IsPlain(segs[i])
    ensures NormalizeString("../" + Join(segs), true) == "../" + Join(segs)
  {
    var all := [".."] + segs;
    ClimbJoin(segs);
    ClimbSplit(segs);
    ClimbFold(segs);
  }

  lemma ClimbNormal(segs: seq<string>)
    requires segs != [] && forall i :: 0 <= i < |segs| ==> IsPlain(segs[i])
    requires Unpadded(Join(segs))
    ensures Trim("../" + Join(segs)) == "../" + Join(segs)
    ensures Normalize("../" + Join(segs)) == "../" + Join(segs)
  {
    var rest := Join(segs);
    var p := "../" + rest;
    assert rest != "" && rest[|rest| - 1] != '/' by {
      assert IsPlain(segs[|segs| - 1]);
      JoinEnd(segs);
    }
    assert Trim(p) == p by {
      assert !IsWhitespace('.');
      UnpaddedConcat("../", rest);
      TrimNoop(p);
    }
    assert p[|p| - 1] == rest[|rest| - 1];
    ClimbNormalString(segs);
    NormalizeRelative(p);
  }

  /** A trimmed, normalised path that climbs out of the root is refused. */
  lemma GuardRefusesClimb(p: string)
    requires Trim(p) == p && Normalize(p) == p && StartsWith(p, "../")
    ensures EnsureRelativePath(p).Err? && EnsureRelativePathAsWritten(p).Err?
  {
  }

  /** "../" followed by a plain relative path is refused. */
  lemma ClimbRejected(segs: seq<string>)
    requires segs != [] && forall i :: 0 <= i < |segs| ==> IsPlain(segs[i])
    requires Unpadded(Join(segs))
    ensures EnsureRelativePath("../" + Join(segs)).Err?
    ensures EnsureRelativePathAsWritten("../" + Join(segs)).Err?
  {
    var p := "../" + Join(segs);
    ClimbNormal(segs);
    ClimbPrefix(p);
    GuardRefusesClimb(p);
  }

  /** The source's own examples of the guard: a nested file is accepted as is, */
  lemma GuardAcceptsExample()
    ensures EnsureRelativePath("docs/README.md") == Ok("docs/README.md")
  {
    var segs := ["docs", "README.md"];
    assert Join(segs) == "docs/README.md";
    PlainJoinAccepted(segs);
  }

  /** a path climbing out of the root is refused, */
  lemma GuardRejectsTraversalExample()
    ensures EnsureRelativePath("../secret.txt").Err?
  {
    assert Join(["secret.txt"]) == "secret.txt";
    assert "../" + "secret.txt" == "../secret.txt";
    ClimbRejected(["secret.txt"]);
  }

  /** and so is an absolute path. */
  lemma GuardRejectsAbsoluteExample()
    ensures EnsureRelativePath("/etc/passwd").Err?
  {
    TrimNoop("/etc/passwd");
    AbsoluteRejected("/etc/passwd");
  }

  lemma WorkspaceResolved()
    ensures Resolve("/tmp/workspace", "") == "/tmp/workspace"
  {
    var base := ["tmp", "workspace"];
    assert "/" + Join(base) == "/tmp/workspace";
    ResolveAlone(base);
  }

  /** One segment of a fold, taken from position i of the segment list. */
  lemma FoldStep(stack: seq<string>, segs: seq<string>, i: nat, aboveRoot: bool)
    requires i < |segs|
    ensures Fold(stack, segs[i..], aboveRoot) == Fold(Push(stack, segs[i], aboveRoot), segs[i + 1..], aboveRoot)
  {
    assert segs[i..][0] == segs[i] && segs[i..][1..] == segs[i + 1..];
  }

  lemma OutsideFold()
    ensures Fold([], [""] + ["tmp", "workspace"] + ["..", "..", "outside.md"] + [""], false) == ["outside.md"]
  {
    var segs := [""] + ["tmp", "workspace"] + ["..", "..", "outside.md"] + [""];
    assert segs == ["", "tmp", "workspace", "..", "..", "outside.md", ""];
    assert segs[0..] == segs;
    FoldStep([], segs, 0, false);
    assert Push([], "", false) == [];
    FoldStep([], segs, 1, false);
    assert Push([], "tmp", false) == ["tmp"];
    FoldStep(["tmp"], segs, 2, false);
    assert Push(["tmp"], "workspace", false) == ["tmp", "workspace"];
    FoldStep(["tmp", "workspace"], segs, 3, false);
    assert Push(["tmp", "workspace"], "..", false) == ["tmp"];
    FoldStep(["tmp"], segs, 4, false);
    assert Push(["tmp"], "..", false) == [];
    FoldStep([], segs, 5, false);
    assert Push([], "outside.md", false) == ["outside.md"];
    FoldStep(["outside.md"], segs, 6, false);
    assert Push(["outside.md"], "", false) == ["outside.md"];
    assert segs[7..] == [];
  }

  lemma OutsideSplit(base: seq<string>, up: seq<string>)
    requires base == ["tmp", "workspace"] && up == ["..", "..", "outside.md"]
    ensures Split("/" + Join(base) + "/" + Join(up) + "/") == [""] + base + up + [""]
  {
    SplitThree(Join(base), Join(up));
    assert forall i :: 0 <= i < |base| ==> '/' !in base[i];
    SplitJoin(base);
    assert forall i :: 0 <= i < |up| ==> '/' !in up[i];
    SplitJoin(up);
  }

  /** Resolving a relative r below "/" + x is the fold of both paths' segments. */
  lemma ResolveThrough(x: string, r: string, stack: seq<string>)
    requires r != "" && r[0] != '/'
    requires Fold([], Split("/" + x + "/" + r + "/"), false) == stack
    ensures Resolve("/" + x, r) == "/" + Join(stack)
  {
  }

  lemma OutsideResolved(workspace: string, outside: string)
    requires workspace == "/tmp/workspace" && outside == "../../outside.md"
    ensures Resolve(workspace, outside) == "/outside.md"
  {
    var base := ["tmp", "workspace"];
    var up := ["..", "..", "outside.md"];
    assert workspace == "/" + Join(base) && outside == Join(up);
    assert Fold([], Split("/" + Join(base) + "/" + Join(up) + "/"), false) == ["outside.md"] by {
      OutsideSplit(base, up);
      OutsideFold();
    }
    ResolveThrough(Join(base), Join(up), ["outside.md"]);
    assert Join(["outside.md"]) == "outside.md";
  }

  lemma DocsPlain()
    ensures PlainPath("docs/a.md") && NormalizeString("docs/a.md", false) == "docs/a.md"
  {
    var segs := ["docs", "a.md"];
    assert Join(segs) == "docs/a.md";
    SplitJoin(segs);
    NormalizeStringPlain(segs, false);
  }

  /** The source's own examples of the join below "/tmp/workspace": a nested file
      lands inside it, */
  lemma JoinInsideExample()
    ensures SafeJoin("/tmp/workspace", "docs/a.md") == Ok("/tmp/workspace" + "/" + "docs/a.md")
  {
    WorkspaceResolved();
    DocsPlain();
    JoinPlainPathBelowBase("/tmp/workspace", "docs/a.md");
  }

  /** and a path climbing two levels up is refused. */
  lemma JoinOutsideExample()
    ensures SafeJoin("/tmp/workspace", "../../outside.md").Err?
  {
    WorkspaceResolved();
    OutsideResolved("/tmp/workspace", "../../outside.md");
  }

  lemma SplitDotSlash()
    ensures Split("./") == [".", ""]
  {
    assert "./" == "." + "/" + "";
    SplitAppend(".", "");
    SplitEmpty();
    assert IndexOf(".", '/') == None;
  }

  /** "./" resolved against a directory is that directory. */
  lemma ResolveRootReference(baseDir: string)
    requires IsAbsolute(baseDir)
    ensures Resolve(Resolve(baseDir, ""), "./") == Resolve(baseDir, "")
  {
    var base := Fold([], Split(baseDir + "/"), false);
    ResolvedBase(baseDir);
    SplitDotSlash();
    assert Kept([".", ""]) == [];
    ResolveKept(base, "./");
    assert base + [] == base;
  }

  lemma DotSlashNormal()
    ensures Normalize("./") == "./"
  {
    SplitDotSlash();
    assert Fold([], [".", ""], true) == [];
  }

  lemma CollapsedNormal(p: string)
    requires p == "a/../"
    ensures Normalize(p) == "./"
  {
    assert Split(p) == ["a", "..", ""] by {
      assert p == "a" + "/" + (".." + "/" + "");
      SplitAppend("a", ".." + "/" + "");
      SplitAppend("..", "");
      SplitEmpty();
      assert IndexOf("a", '/') == None && IndexOf("..", '/') == None;
    }
    assert Fold([], ["a", "..", ""], true) == [];
    assert p[0] == 'a' && p[|p| - 1] == '/';
  }

  /** The source's guard accepts any path that normalises to "./", a name for the
      root itself; the corrected guard refuses it as a root reference. */
  lemma RootReferenceSlipsThrough(p: string)
    requires p != "" && Unpadded(p) && '\\' !in p && '\0' !in p && Normalize(p) == "./"
    ensures EnsureRelativePathAsWritten(p) == Ok("./")
    ensures EnsureRelativePath(p) == Err(InputFailure(RootReferenceMessage))
  {
    TrimNoop(p);
    assert "./"[0] == '.' && "./"[..1] != "/";
  }

  /** Two such paths: "./" itself, */
  lemma DotSlashSlipsThrough()
    ensures EnsureRelativePathAsWritten("./") == Ok("./") && EnsureRelativePath("./").Err?
  {
    DotSlashNormal();
    RootReferenceSlipsThrough("./");
  }

  /** and "a/../". */
  lemma CollapsedSlipsThrough()
    ensures EnsureRelativePathAsWritten("a/../") == Ok("./") && EnsureRelativePath("a/../").Err?
  {
    CollapsedNormal("a/../");
    RootReferenceSlipsThrough("a/../");
  }

  /** Joined to any base, "./" is the base directory itself, so a write to it
      would target the shelf root. */
  lemma RootReferenceJoinsToBase(baseDir: string)
    requires IsAbsolute(baseDir)
    ensures SafeJoin(baseDir, "./") == Ok(Resolve(baseDir, ""))
  {
    ResolveRootReference(baseDir);
  }

  lemma GuardsOnRoot(input: string)
    requires Trim(input) != "" && '\\' !in Trim(input) && '\0' !in Trim(input) && Normalize(Trim(input)) == "./"
    ensures EnsureRelativePathAsWritten(input) == Ok("./")
    ensures EnsureRelativePath(input) == Err(InputFailure(RootReferenceMessage))
  {
    assert "./"[0] == '.' && "./"[..1] != "/";
    assert !StartsWith("./", "../") && !StartsWith("./", "/");
  }

  lemma GuardsOffRoot(input: string)
    requires Trim(input) != "" && '\\' !in Trim(input) && '\0' !in Trim(input) && Normalize(Trim(input)) != "./"
    ensures EnsureRelativePathAsWritten(input) != Ok("./")
    ensures EnsureRelativePath(input) == EnsureRelativePathAsWritten(input)
  {
  }

  /** The two guards differ only on paths that normalise to "./". */
  lemma GuardsDifferOnlyOnRoot(input: string)
    ensures EnsureRelativePath(input) ==
      if EnsureRelativePathAsWritten(input) == Ok("./") then Err(InputFailure(RootReferenceMessage))
      else EnsureRelativePathAsWritten(input)
  {
    var t := Trim(input);
    if t != "" && '\\' !in t && '\0' !in t {
      if Normalize(t) == "./" {
        GuardsOnRoot(input);
      } else {
        GuardsOffRoot(input);
      }
    }
  }

  // ---------------------------------------------------------------------------
  // UTF-8 byte-budget truncation

  datatype Truncation = Truncation(value: Text, truncated: bool, bytes: nat)

  /** The longest prefix length, at most k, whose UTF-8 encoding fits the budget
      (0 when none does). */
  function FitLength(s: Text, maxBytes: int, k: nat): (n: nat)
    requires k <= |s|
    ensures n <= k
    ensures n == 0 || ByteLength(s[..n]) <= maxBytes
    ensures forall j :: n < j <= k ==> ByteLength(s[..j]) > maxBytes
    decreases k
  {
    if k == 0 || ByteLength(s[..k]) <= maxBytes then k else FitLength(s, maxBytes, k - 1)
  }

  /** What truncateUtf8 returns: the content when it fits, else its longest prefix,
      in code units, that fits. */
  function Truncate(content: Text, maxBytes: int): (r: Truncation)
    ensures r.truncated <==> ByteLength(content) > maxBytes
    ensures !r.truncated ==> r.value == content
    ensures r.bytes == ByteLength(r.value)
    ensures |r.value| <= |content| && r.value == content[..|r.value|]
    ensures maxBytes >= 0 ==> r.bytes <= maxBytes
    ensures forall j :: |r.value| < j <= |content| ==> ByteLength(content[..j]) > maxBytes
  {
    var total := ByteLength(content);
    if total <= maxBytes then Truncation(content, false, total)
    else
      var n := FitLength(content, maxBytes, |content|);
      assert n == 0 ==> content[..n] == [];
      Truncation(content[..n], true, ByteLength(content[..n]))
  }

  lemma FitLengthUnique(s: Text, maxBytes: int, n: nat)
    requires n <= |s|
    requires n == 0 || ByteLength(s[..n]) <= maxBytes
    requires forall j :: n < j <= |s| ==> ByteLength(s[..j]) > maxBytes
    ensures FitLength(s, maxBytes, |s|) == n
  {
  }

  /** truncateUtf8: a binary search over prefix lengths in code units. */
  method TruncateUtf8(content: Text, maxBytes: int) returns (r: Truncation)
    ensures r == Truncate(content, maxBytes)
  {
    var totalBytes := ByteLength(content);
    if totalBytes <= maxBytes {
      return Truncation(content, false, totalBytes);
    }
    var low, high := 0, |content|;
    while low < high
      invariant 0 <= low <= high <= |content|
      invariant low == 0 || ByteLength(content[..low]) <= maxBytes
      invariant forall j :: high < j <= |content| ==> ByteLength(content[..j]) > maxBytes
      decreases high - low
    {
      var mid := (low + high + 1) / 2;
      if ByteLength(content[..mid]) <= maxBytes {
        low := mid;
      } else {
        forall j | mid <= j <= |content|
          ensures ByteLength(content[..j]) > maxBytes
        {
          PrefixMonotone(content, mid, j);
        }
        high := mid - 1;
      }
    }
    FitLengthUnique(content, maxBytes, low);
    var value := content[..low];
    r := Truncation(value, true, ByteLength(value));
  }

  /** Truncating the result again, with the same or a larger budget, is a no-op. */
  lemma TruncateIdempotent(content: Text, maxBytes: int, budget: int)
    requires 0 <= maxBytes <= budget
    ensures var first := Truncate(content, maxBytes);
      Truncate(first.value, budget) == Truncation(first.value, false, first.bytes)
  {
  }

  /** The UTF-8 lengths of "abc" and of "abc" followed by U+1F600 or by its high
      surrogate alone. */
  lemma AbcLength()
    ensures ByteLength([97, 98, 99]) == 3
  {
    ByteLengthUnit(99, []);
    assert [99 as CodeUnit] + [] == [99];
    ByteLengthUnit(98, [99]);
    ByteLengthUnit(97, [98, 99]);
  }

  lemma SmileyLength()
    ensures ByteLength([97, 98, 99, 0xD83D, 0xDE00]) == 7
  {
    ByteLengthPair(0xD83D, 0xDE00, []);
    assert [0xD83D, 0xDE00] + [] == [0xD83D, 0xDE00];
    ByteLengthUnit(99, [0xD83D, 0xDE00]);
    ByteLengthUnit(98, [99, 0xD83D, 0xDE00]);
    ByteLengthUnit(97, [98, 99, 0xD83D, 0xDE00]);
  }

  lemma HalfSmileyLength()
    ensures ByteLength([97, 98, 99, 0xD83D]) == 6
  {
    ByteLengthUnit(0xD83D, []);
    assert [0xD83D] + [] == [0xD83D];
    ByteLengthUnit(99, [0xD83D]);
    ByteLengthUnit(98, [99, 0xD83D]);
    ByteLengthUnit(97, [98, 99, 0xD83D]);
  }

  /** "abc" followed by U+1F600 (a surrogate pair): four bytes keep "abc"; six bytes
      keep "abc" and the lone high surrogate, which counts as a three-byte U+FFFD. */
  lemma TruncateExamples()
    ensures Truncate([97, 98, 99, 0xD83D, 0xDE00], 4) == Truncation([97, 98, 99], true, 3)
    ensures Truncate([97, 98, 99, 0xD83D, 0xDE00], 6) == Truncation([97, 98, 99, 0xD83D], true, 6)
  {
    var s: Text := [97, 98, 99, 0xD83D, 0xDE00];
    AbcLength();
    SmileyLength();
    HalfSmileyLength();
    assert s[..5] == s && s[..4] == [97, 98, 99, 0xD83D] && s[..3] == [97, 98, 99];
    assert FitLength(s, 4, 5) == 3;
    assert FitLength(s, 6, 5) == 4;
  }

  // ---------------------------------------------------------------------------
  // Content types

  /** inferContentType: by lower-cased extension, .md and .json are recognised and
      everything else (.txt included) is plain text. */
  function InferContentType(filePath: string): (r: string)
    ensures r == "text/markdown" <==> Lower(Extname(filePath)) == ".md"
    ensures r == "application/json" <==> Lower(Extname(filePath)) == ".json"
    ensures r in {"text/markdown", "application/json", "text/plain"}
  {
    var ext := Lower(Extname(filePath));
    if ext == ".md" then "text/markdown"
    else if ext == ".json" then "application/json"
    else "text/plain"
  }

  /** The last c in s is at i when s[i] is c and nothing after it is. */
  lemma LastIndexOfAt(s: string, c: char, i: nat)
    requires i < |s| && s[i] == c && forall k :: i < k < |s| ==> s[k] != c
    ensures LastIndexOf(s, c) == Some(i)
  {
  }

  /** The last segment of a path whose final part holds no separator is that part. */
  lemma LastSegmentOfName(dir: string, name: string)
    requires dir == "" || dir[|dir| - 1] == '/'
    requires name != "" && '/' !in name
    ensures LastSegment(dir + name) == name
  {
    var p := dir + name;
    assert p[|p| - 1] == name[|name| - 1];
    assert forall k :: |dir| <= k < |p| ==> p[k] == name[k - |dir|];
    if dir == "" {
      assert p == name;
    } else {
      LastIndexOfAt(p, '/', |dir| - 1);
      assert p[|dir|..] == name;
    }
  }

  lemma ExtnameFrom(p: string, b: string, d: nat)
    requires LastSegment(p) == b && LastIndexOf(b, '.') == Some(d) && d != 0 && b != ".."
    ensures Extname(p) == b[d..]
  {
  }

  /** A file name stem.ext has no separator, and its last dot ends the stem. */
  lemma FileNameParts(name: string, stem: string, ext: string)
    requires name == stem + "." + ext
    requires '/' !in stem && '/' !in ext && '.' !in ext
    ensures '/' !in name && LastIndexOf(name, '.') == Some(|stem|) && name[|stem|..] == "." + ext
  {
    assert forall k :: |stem| < k < |name| ==> name[k] == ext[k - |stem| - 1];
    assert '/' !in name by {
      assert forall k :: 0 <= k < |stem| ==> name[k] == stem[k];
    }
    LastIndexOfAt(name, '.', |stem|);
    assert name == stem + ("." + ext);
  }

  /** The extension of a file name p, in any directory, is its last dot and what
      follows it, whenever the name has a stem before that dot. */
  lemma ExtnameOfFileName(p: string, dir: string, stem: string, ext: string)
    requires p == dir + stem + "." + ext
    requires dir == "" || dir[|dir| - 1] == '/'
    requires stem != "" && '/' !in stem
    requires ext != "" && '/' !in ext && '.' !in ext
    ensures Extname(p) == "." + ext
  {
    var name := stem + "." + ext;
    FileNameParts(name, stem, ext);
    assert p == dir + name;
    LastSegmentOfName(dir, name);
    ExtnameFrom(p, name, |stem|);
  }

  lemma DotPrefix(a: string, b: string)
    ensures "." + a == "." + b <==> a == b
  {
    if "." + a == "." + b {
      assert a == ("." + a)[1..] && b == ("." + b)[1..];
    }
  }

  /** The content type depends only on the case-folded extension of the file name:
      "notes.MD" is markdown, "data.Json" is JSON, and any other extension is plain
      text. */
  lemma InferContentTypeByName(p: string, dir: string, stem: string, ext: string)
    requires p == dir + stem + "." + ext
    requires dir == "" || dir[|dir| - 1] == '/'
    requires stem != "" && '/' !in stem
    requires ext != "" && '/' !in ext && '.' !in ext
    ensures InferContentType(p)
      == if Lower(ext) == "md" then "text/markdown"
         else if Lower(ext) == "json" then "application/json"
         else "text/plain"
  {
    ExtnameOfFileName(p, dir, stem, ext);
    var lowered := Lower("." + ext);
    assert lowered == "." + Lower(ext);
    DotPrefix(Lower(ext), "md");
    DotPrefix(Lower(ext), "json");
    assert ".md" == "." + "md" && ".json" == "." + "json";
  }
}
