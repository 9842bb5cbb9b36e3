/** The hydrate_shelf tool of src/tools/hydrate-shelf.ts: every entry of a shelf
    is validated, joined under the target directory and written there, refusing to
    replace what exists unless asked to, and stopping at the first failure. */
module HydrateShelf {
  import opened Wrappers
  import opened Js
  import opened Utf16
  import opened Errors
  import opened PosixPath
  import opened Common

  // ---------------------------------------------------------------------------
  // The local filesystem

  /** The filesystem as the handler sees it: file contents by absolute path, and
      the directories. */
  datatype Fs = Fs(files: map<string, Text>, dirs: set<string>)

  /** fs.access succeeds: there is a file or a directory at p. */
  predicate Exists(fs: Fs, p: string) {
    p in fs.files || p in fs.dirs
  }

  /** The directories mkdir(d, { recursive: true }) makes: d and every ancestor. */
  function DirChain(d: string): set<string> {
    set i | 1 <= i <= |d| && (i == |d| || d[i] == '/') :: d[..i]
  }

  function WithDirs(fs: Fs, d: string): (r: Fs)
    ensures r.files == fs.files && r.dirs == fs.dirs + DirChain(d)
  {
    Fs(fs.files, fs.dirs + DirChain(d))
  }

  function WithFile(fs: Fs, p: string, content: Text): (r: Fs)
    ensures r.dirs == fs.dirs && r.files == fs.files[p := content]
  {
    Fs(fs.files[p := content], fs.dirs)
  }

  /** The error codes node:fs rejects with here. */
  datatype FsCode = AlreadyExists | NotADirectory | IsADirectory

  /** A rejected fs call: its code, the system call and the path. */
  datatype FsFault = FsFault(code: FsCode, syscall: string, path: string)

  function CodeName(code: FsCode): string {
    match code
    case AlreadyExists => "EEXIST"
    case NotADirectory => "ENOTDIR"
    case IsADirectory => "EISDIR"
  }

  function CodeDescription(code: FsCode): string {
    match code
    case AlreadyExists => "file already exists"
    case NotADirectory => "not a directory"
    case IsADirectory => "illegal operation on a directory"
  }

  /** The Error node:fs rejects with, whose message reads
      "<code>: <description>, <syscall> '<path>'". */
  function FaultError(f: FsFault): (t: Thrown)
    ensures t.PlainError? && t.message != ""
  {
    PlainError(CodeName(f.code) + ": " + CodeDescription(f.code) + ", " + f.syscall + " '" + f.path + "'")
  }

  /** Why mkdir(d, { recursive: true }) fails: d is a file, or one of its ancestors
      is. None when it succeeds. */
  function MkdirFault(fs: Fs, d: string): (r: Option<FsFault>)
    ensures r.None? <==> d !in fs.files && DirChain(d) !! fs.files.Keys
  {
    if d in fs.files then Some(FsFault(AlreadyExists, "mkdir", d))
    else if DirChain(d) !! fs.files.Keys then None
    else Some(FsFault(NotADirectory, "mkdir", d))
  }

  /** Why writeFile(p) fails: p is a directory, or one of its ancestors is a file.
      None when it succeeds. */
  function WriteFault(fs: Fs, p: string): (r: Option<FsFault>)
    ensures r.None? <==> p !in fs.dirs && (DirChain(p) - {p}) !! fs.files.Keys
  {
    if p in fs.dirs then Some(FsFault(IsADirectory, "open", p))
    else if (DirChain(p) - {p}) !! fs.files.Keys then None
    else Some(FsFault(NotADirectory, "open", p))
  }

  /** The part of node:fs/promises the handler uses, over a mutable filesystem. */
  class FileSystem {
    var files: map<string, Text>
    var dirs: set<string>

    constructor (state: Fs)
      ensures State() == state
    {
      files := state.files;
      dirs := state.dirs;
    }

    function State(): Fs
      reads this
    {
      Fs(files, dirs)
    }

    /** fs.access(p) resolving rather than rejecting. */
    method Access(p: string) returns (found: bool)
      ensures found <==> p in State().files || p in State().dirs
    {
      found := p in files || p in dirs;
    }

    /** fs.mkdir(d, { recursive: true }): the fault it rejects with, which leaves
        the filesystem as it was, or None once d and its ancestors are directories. */
    method Mkdir(d: string) returns (fault: Option<FsFault>)
      modifies this
      ensures fault == MkdirFault(old(State()), d)
      ensures State() == if fault.None? then WithDirs(old(State()), d) else old(State())
    {
      fault := MkdirFault(State(), d);
      if fault.None? {
        dirs := dirs + DirChain(d);
      }
    }

    /** fs.writeFile(p, content, "utf8"): the fault it rejects with, which leaves
        the filesystem as it was, or None once p holds content. */
    method WriteFile(p: string, content: Text) returns (fault: Option<FsFault>)
      modifies this
      ensures fault == WriteFault(old(State()), p)
      ensures State() == if fault.None? then WithFile(old(State()), p, content) else old(State())
    {
      fault := WriteFault(State(), p);
      if fault.None? {
        files := files[p := content];
      }
    }
  }

  // ---------------------------------------------------------------------------
  // The write loop, as a function of the filesystem it starts from

  /** One entry of the shelf source: its key and its content. */
  datatype Entry = Entry(key: string, content: Text)

  /** The counters and the filesystem after some entries were written. */
  datatype Progress = Progress(fs: Fs, filesWritten: nat, bytesWritten: nat)

  /** The loop after some entries: still going, or stopped by what an entry threw,
      with the filesystem as it was left. */
  datatype Pass = Going(progress: Progress) | Aborted(error: Thrown, left: Fs)
  {
    /** The filesystem the loop ends with, whichever way it ends. */
    function Final(): Fs {
      if Going? then progress.fs else left
    }
  }

  function RefuseOverwrite(normalized: string): (e: ToolError)
    ensures e.code == LocalIoError && e.status == None && e.retryable == Some(false)
    ensures e.message == "Refusing to overwrite existing file: " + normalized
  {
    ToolError(LocalIoError, "Refusing to overwrite existing file: " + normalized, None, Undefined, Some(false))
  }

  /** Where an entry goes: ensureRelativePath, as the source writes it, on its key,
      then safeJoin under the target; the normalised key and the full path. */
  function Destination(targetDir: string, key: string): (r: Result<(string, string), ToolError>)
    requires IsAbsolute(targetDir)
    ensures r.Ok? ==> EnsureRelativePathAsWritten(key) == Ok(r.value.0) && SafeJoin(targetDir, r.value.0) == Ok(r.value.1)
    ensures r.Err? ==> (EnsureRelativePathAsWritten(key).Err? && r.error == EnsureRelativePathAsWritten(key).error)
                       || (EnsureRelativePathAsWritten(key).Ok?
                           && SafeJoin(targetDir, EnsureRelativePathAsWritten(key).value) == Err(r.error))
  {
    match EnsureRelativePathAsWritten(key)
    case Err(e) => Err(e)
    case Ok(normalized) =>
      match SafeJoin(targetDir, normalized)
      case Err(e) => Err(e)
      case Ok(full) => Ok((normalized, full))
  }

  /** Making the entry's directory and writing it, once it may be written. */
  function Place(p: Progress, full: string, e: Entry): Pass
  {
    match MkdirFault(p.fs, Dirname(full))
    case Some(f) => Aborted(FaultError(f), p.fs)
    case None =>
      var made := WithDirs(p.fs, Dirname(full));
      match WriteFault(made, full)
      case Some(f) => Aborted(FaultError(f), made)
      case None => Going(Progress(WithFile(made, full, e.content), p.filesWritten + 1, p.bytesWritten + ByteLength(e.content)))
  }

  /** One turn of the loop over an entry whose destination is `located`. */
  function WriteEntry(p: Progress, located: Result<(string, string), ToolError>, overwrite: bool, e: Entry): Pass
  {
    match located
    case Err(err) => Aborted(ToolFailure(err), p.fs)
    case Ok((normalized, full)) =>
      if !overwrite && Exists(p.fs, full) then Aborted(ToolFailure(RefuseOverwrite(normalized)), p.fs)
      else Place(p, full, e)
  }

  /** A turn of the loop under targetDir, as a function of the progress and the entry. */
  function Turn(targetDir: string, overwrite: bool): (Progress, Entry) -> Pass
    requires IsAbsolute(targetDir)
  {
    (p: Progress, e: Entry) => WriteEntry(p, Destination(targetDir, e.key), overwrite, e)
  }

  /** turn takes each entry the way a turn of the loop under targetDir does. */
  ghost predicate Turns(turn: (Progress, Entry) -> Pass, targetDir: string, overwrite: bool)
    requires IsAbsolute(targetDir)
  {
    forall p: Progress, located: Result<(string, string), ToolError>, e: Entry
      {:trigger WriteEntry(p, located, overwrite, e)} ::
      located == Destination(targetDir, e.key) ==> turn(p, e) == WriteEntry(p, located, overwrite, e)
  }

  lemma TurnTurns(targetDir: string, overwrite: bool)
    requires IsAbsolute(targetDir)
    ensures Turns(Turn(targetDir, overwrite), targetDir, overwrite)
  {
  }

  /** The loop from entry i on, with the progress p made before it, taking each
      entry by turn: it stops at the first entry that throws. */
  function PassFrom(entries: seq<Entry>, turn: (Progress, Entry) -> Pass, p: Progress, i: nat): Pass
    requires i <= |entries|
    decreases |entries| - i
  {
    if i == |entries| then Going(p)
    else
      match turn(p, entries[i])
      case Aborted(e, left) => Aborted(e, left)
      case Going(q) => PassFrom(entries, turn, q, i + 1)
  }

  /** The whole loop over the entries from the filesystem `start`. */
  function Run(entries: seq<Entry>, turn: (Progress, Entry) -> Pass, start: Fs): Pass
  {
    PassFrom(entries, turn, Progress(start, 0, 0), 0)
  }

  /** Where an entry goes, computed the way the handler does it. */
  method Locate(targetDir: string, key: string) returns (r: Result<(string, string), ToolError>)
    requires IsAbsolute(targetDir)
    ensures r == Destination(targetDir, key)
  {
    var normalized := EnsureRelativePathAsWritten(key);
    if normalized.Err? {
      return Err(normalized.error);
    }
    var fullPath := SafeJoin(targetDir, normalized.value);
    if fullPath.Err? {
      return Err(fullPath.error);
    }
    return Ok((normalized.value, fullPath.value));
  }

  /** The rest of the loop body once the entry is located: refuse to replace what
      exists unless overwriting, make its directory, write it. None when the entry
      was written, or what it threw. */
  method WriteLocated(fsys: FileSystem, located: Result<(string, string), ToolError>, overwrite: bool, e: Entry,
                      ghost p: Progress)
    returns (thrown: Option<Thrown>)
    requires p.fs == fsys.State()
    modifies fsys
    ensures var next := WriteEntry(p, located, overwrite, e);
      && (next.Going? ==> thrown == None && next.progress == Progress(fsys.State(), p.filesWritten + 1,
                                                                      p.bytesWritten + ByteLength(e.content)))
      && (next.Aborted? ==> thrown == Some(next.error) && fsys.State() == next.left)
  {
    if located.Err? {
      return Some(ToolFailure(located.error));
    }
    var (normalized, fullPath) := located.value;
    if !overwrite {
      var found := fsys.Access(fullPath);
      if found {
        return Some(ToolFailure(RefuseOverwrite(normalized)));
      }
    }
    var fault := fsys.Mkdir(Dirname(fullPath));
    if fault.Some? {
      return Some(FaultError(fault.value));
    }
    fault := fsys.WriteFile(fullPath, e.content);
    if fault.Some? {
      return Some(FaultError(fault.value));
    }
    thrown := None;
  }

  /** The body of the write loop for one entry. */
  method WriteOne(fsys: FileSystem, targetDir: string, overwrite: bool, e: Entry,
                  ghost p: Progress, ghost turn: (Progress, Entry) -> Pass)
    returns (thrown: Option<Thrown>)
    requires IsAbsolute(targetDir) && Turns(turn, targetDir, overwrite) && p.fs == fsys.State()
    modifies fsys
    ensures var next := turn(p, e);
      && (next.Going? ==> thrown == None && next.progress == Progress(fsys.State(), p.filesWritten + 1,
                                                                      p.bytesWritten + ByteLength(e.content)))
      && (next.Aborted? ==> thrown == Some(next.error) && fsys.State() == next.left)
  {
    var located := Locate(targetDir, e.key);
    thrown := WriteLocated(fsys, located, overwrite, e, p);
  }

  /** The write loop of the hydrate_shelf handler, where turn is how the loop takes
      an entry under targetDir. It answers the counters, or what the failing entry
      threw; the filesystem keeps every write made before it. */
  method WriteEntries(fsys: FileSystem, entries: seq<Entry>, targetDir: string, overwrite: bool,
                      ghost turn: (Progress, Entry) -> Pass)
    returns (outcome: Result<(nat, nat), Thrown>)
    requires IsAbsolute(targetDir) && Turns(turn, targetDir, overwrite)
    modifies fsys
    ensures var pass := Run(entries, turn, old(fsys.State()));
      && (pass.Going? ==> outcome == Ok((pass.progress.filesWritten, pass.progress.bytesWritten))
                          && fsys.State() == pass.progress.fs)
      && (pass.Aborted? ==> outcome == Err(pass.error) && fsys.State() == pass.left)
  {
    ghost var pass := Run(entries, turn, fsys.State());
    var filesWritten: nat := 0;
    var bytesWritten: nat := 0;
    var i := 0;
    while i < |entries|
      invariant 0 <= i <= |entries|
      invariant PassFrom(entries, turn, Progress(fsys.State(), filesWritten, bytesWritten), i) == pass
    {
      ghost var p := Progress(fsys.State(), filesWritten, bytesWritten);
      var thrown := WriteOne(fsys, targetDir, overwrite, entries[i], p, turn);
      if thrown.Some? {
        return Err(thrown.value);
      }
      filesWritten := filesWritten + 1;
      bytesWritten := bytesWritten + ByteLength(entries[i].content);
      i := i + 1;
    }
    outcome := Ok((filesWritten, bytesWritten));
  }

  // ---------------------------------------------------------------------------
  // What the loop promises, for any turn with the right one-step properties

  /** A written entry counts one file and its UTF-8 length in bytes. */
  ghost predicate Counts(turn: (Progress, Entry) -> Pass) {
    forall p: Progress, e: Entry {:trigger turn(p, e)} :: turn(p, e).Going? ==>
      turn(p, e).progress.filesWritten == p.filesWritten + 1
      && turn(p, e).progress.bytesWritten == p.bytesWritten + ByteLength(e.content)
  }

  /** An entry that throws leaves every file as it found it, though directories
      it made stay. */
  ghost predicate Leaves(turn: (Progress, Entry) -> Pass) {
    forall p: Progress, e: Entry {:trigger turn(p, e)} :: turn(p, e).Aborted? ==>
      turn(p, e).left.files == p.fs.files && p.fs.dirs <= turn(p, e).left.dirs
  }

  /** A written entry sets the file at(e) to its content, changes no other file
      and removes no directory. */
  ghost predicate Writes(turn: (Progress, Entry) -> Pass, at: Entry -> string) {
    forall p: Progress, e: Entry {:trigger turn(p, e)} :: turn(p, e).Going? ==>
      turn(p, e).progress.fs.files == p.fs.files[at(e) := e.content]
      && p.fs.dirs <= turn(p, e).progress.fs.dirs
  }

  /** Nothing existed at at(e) before an entry was written there. */
  ghost predicate Fresh(turn: (Progress, Entry) -> Pass, at: Entry -> string) {
    forall p: Progress, e: Entry {:trigger turn(p, e)} :: turn(p, e).Going? ==> !Exists(p.fs, at(e))
  }

  /** No directory stood at at(e) before an entry was written there. */
  ghost predicate Unoccupied(turn: (Progress, Entry) -> Pass, at: Entry -> string) {
    forall p: Progress, e: Entry {:trigger turn(p, e)} :: turn(p, e).Going? ==> at(e) !in p.fs.dirs
  }

  /** Every written entry lands where `inside` holds. */
  ghost predicate Lands(turn: (Progress, Entry) -> Pass, at: Entry -> string, inside: string -> bool) {
    forall p: Progress, e: Entry {:trigger turn(p, e)} :: turn(p, e).Going? ==> inside(at(e))
  }

  /** The UTF-8 length of the entries from i on. */
  function BytesFrom(entries: seq<Entry>, i: nat): nat
    requires i <= |entries|
    decreases |entries| - i
  {
    if i == |entries| then 0 else ByteLength(entries[i].content) + BytesFrom(entries, i + 1)
  }

  lemma {:induction false} PassFromCounts(entries: seq<Entry>, turn: (Progress, Entry) -> Pass, p: Progress, i: nat)
    requires i <= |entries| && Counts(turn)
    ensures var r := PassFrom(entries, turn, p, i);
      r.Going? ==> r.progress.filesWritten == p.filesWritten + |entries| - i
                   && r.progress.bytesWritten == p.bytesWritten + BytesFrom(entries, i)
    decreases |entries| - i
  {
    if i < |entries| && turn(p, entries[i]).Going? {
      PassFromCounts(entries, turn, turn(p, entries[i]).progress, i + 1);
    }
  }

  /** A loop that finishes has written every entry, and counted the bytes of all. */
  lemma RunCounts(entries: seq<Entry>, turn: (Progress, Entry) -> Pass, start: Fs)
    requires Counts(turn)
    ensures var r := Run(entries, turn, start);
      r.Going? ==> r.progress.filesWritten == |entries| && r.progress.bytesWritten == BytesFrom(entries, 0)
  {
    PassFromCounts(entries, turn, Progress(start, 0, 0), 0);
  }

  /** The loop over the first j entries, then over the rest. */
  lemma {:induction false} PassFromSplit(entries: seq<Entry>, turn: (Progress, Entry) -> Pass, p: Progress,
                                         i: nat, j: nat)
    requires i <= j <= |entries|
    ensures var head := PassFrom(entries[..j], turn, p, i);
      && (head.Aborted? ==> PassFrom(entries, turn, p, i) == head)
      && (head.Going? ==> PassFrom(entries, turn, p, i) == PassFrom(entries, turn, head.progress, j))
    decreases j - i
  {
    if i < j {
      assert entries[..j][i] == entries[i];
      var next := turn(p, entries[i]);
      if next.Going? {
        PassFromSplit(entries, turn, next.progress, i + 1, j);
      }
    }
  }

  /** The loop over a prefix goes one entry further by a turn. */
  lemma RunExtends(entries: seq<Entry>, turn: (Progress, Entry) -> Pass, start: Fs, j: nat)
    requires j < |entries|
    ensures var head := Run(entries[..j], turn, start);
      && (head.Aborted? ==> Run(entries[..j + 1], turn, start) == head)
      && (head.Going? ==> Run(entries[..j + 1], turn, start) == turn(head.progress, entries[j]))
  {
    var pre := entries[..j + 1];
    assert pre[..j] == entries[..j];
    PassFromSplit(pre, turn, Progress(start, 0, 0), 0, j);
    var head := Run(entries[..j], turn, start);
    if head.Going? {
      assert pre[j] == entries[j];
    }
  }

  lemma {:induction false} FirstFailureFrom(entries: seq<Entry>, turn: (Progress, Entry) -> Pass, start: Fs, j: nat)
    requires j < |entries| && Run(entries[..j], turn, start).Going?
    requires Run(entries, turn, start).Aborted?
    ensures exists k :: j <= k < |entries| && Run(entries[..k], turn, start).Going?
                        && turn(Run(entries[..k], turn, start).progress, entries[k]) == Run(entries, turn, start)
    decreases |entries| - j
  {
    RunExtends(entries, turn, start, j);
    var head := Run(entries[..j], turn, start);
    PassFromSplit(entries, turn, Progress(start, 0, 0), 0, j + 1);
    if turn(head.progress, entries[j]).Aborted? {
      assert Run(entries, turn, start) == Run(entries[..j + 1], turn, start);
    } else {
      FirstFailureFrom(entries, turn, start, j + 1);
    }
  }

  /** A loop that stops, stops at the first entry that throws: every entry before it
      was written, and what that entry threw is the answer, with the files as those
      earlier writes left them. */
  lemma FirstFailure(entries: seq<Entry>, turn: (Progress, Entry) -> Pass, start: Fs)
    requires Leaves(turn) && Run(entries, turn, start).Aborted?
    ensures exists k :: 0 <= k < |entries| && Run(entries[..k], turn, start).Going?
                        && turn(Run(entries[..k], turn, start).progress, entries[k]) == Run(entries, turn, start)
                        && Run(entries, turn, start).left.files == Run(entries[..k], turn, start).progress.fs.files
                        && Run(entries[..k], turn, start).progress.fs.dirs <= Run(entries, turn, start).left.dirs
  {
    assert entries[..0] == [];
    FirstFailureFrom(entries, turn, start, 0);
  }

  /** The files of `a` are all in `b` with the same contents, and so are its directories. */
  ghost predicate Grows(a: Fs, b: Fs) {
    && (forall k :: k in a.files ==> k in b.files && b.files[k] == a.files[k])
    && a.dirs <= b.dirs
  }

  lemma {:induction false} PassFromGrows(entries: seq<Entry>, turn: (Progress, Entry) -> Pass,
                                         at: Entry -> string, p: Progress, i: nat)
    requires i <= |entries| && Leaves(turn) && Writes(turn, at) && Fresh(turn, at)
    ensures Grows(p.fs, PassFrom(entries, turn, p, i).Final())
    decreases |entries| - i
  {
    if i < |entries| && turn(p, entries[i]).Going? {
      var q := turn(p, entries[i]).progress;
      PassFromGrows(entries, turn, at, q, i + 1);
    }
  }

  /** When every entry goes where nothing exists yet, no file that was there before
      is replaced or removed, whichever way the loop ends. */
  lemma RunKeepsExisting(entries: seq<Entry>, turn: (Progress, Entry) -> Pass, at: Entry -> string, start: Fs)
    requires Leaves(turn) && Writes(turn, at) && Fresh(turn, at)
    ensures Grows(start, Run(entries, turn, start).Final())
  {
    PassFromGrows(entries, turn, at, Progress(start, 0, 0), 0);
  }

  lemma {:induction false} PassFromPlaces(entries: seq<Entry>, turn: (Progress, Entry) -> Pass,
                                          at: Entry -> string, p: Progress, i: nat, j: nat)
    requires i <= j < |entries| && Writes(turn, at) && Fresh(turn, at) && Leaves(turn)
    requires PassFrom(entries, turn, p, i).Going?
    ensures var fs := PassFrom(entries, turn, p, i).progress.fs;
      at(entries[j]) in fs.files && fs.files[at(entries[j])] == entries[j].content
    decreases |entries| - i
  {
    var q := turn(p, entries[i]).progress;
    if i < j {
      PassFromPlaces(entries, turn, at, q, i + 1, j);
    } else {
      PassFromGrows(entries, turn, at, q, i + 1);
    }
  }

  /** When the loop finishes and every entry went where nothing existed, each entry's
      file holds that entry's content. */
  lemma RunPlaces(entries: seq<Entry>, turn: (Progress, Entry) -> Pass, at: Entry -> string, start: Fs, j: nat)
    requires j < |entries| && Writes(turn, at) && Fresh(turn, at) && Leaves(turn)
    requires Run(entries, turn, start).Going?
    ensures var fs := Run(entries, turn, start).progress.fs;
      at(entries[j]) in fs.files && fs.files[at(entries[j])] == entries[j].content
  {
    PassFromPlaces(entries, turn, at, Progress(start, 0, 0), 0, j);
  }

  lemma {:induction false} PassFromDistinct(entries: seq<Entry>, turn: (Progress, Entry) -> Pass,
                                            at: Entry -> string, p: Progress, i: nat, j: nat, k: nat)
    requires i <= j < k < |entries| && Writes(turn, at) && Fresh(turn, at) && Leaves(turn)
    requires PassFrom(entries, turn, p, i).Going?
    ensures at(entries[j]) != at(entries[k])
    decreases |entries| - i
  {
    var q := turn(p, entries[i]).progress;
    if i < j {
      PassFromDistinct(entries, turn, at, q, i + 1, j, k);
    } else {
      PassFromSplit(entries, turn, q, i + 1, k);
      var head := PassFrom(entries[..k], turn, q, i + 1);
      PassFromGrows(entries[..k], turn, at, q, i + 1);
      assert head.Going?;
      assert entries[..k][k - 1] == entries[k - 1];
      PassFromStepAt(entries, turn, head.progress, k);
    }
  }

  /** The loop at entry k: it only goes on when that entry's turn does. */
  lemma PassFromStepAt(entries: seq<Entry>, turn: (Progress, Entry) -> Pass, p: Progress, k: nat)
    requires k < |entries| && PassFrom(entries, turn, p, k).Going?
    ensures turn(p, entries[k]).Going?
  {
  }

  /** When the loop finishes and every entry went where nothing existed, no two
      entries went to the same file. */
  lemma RunDistinct(entries: seq<Entry>, turn: (Progress, Entry) -> Pass, at: Entry -> string, start: Fs,
                    j: nat, k: nat)
    requires j < k < |entries| && Writes(turn, at) && Fresh(turn, at) && Leaves(turn)
    requires Run(entries, turn, start).Going?
    ensures at(entries[j]) != at(entries[k])
  {
    PassFromDistinct(entries, turn, at, Progress(start, 0, 0), 0, j, k);
  }

  /** The file at k differs between a and b. */
  predicate Changed(a: Fs, b: Fs, k: string) {
    k in b.files && (k !in a.files || b.files[k] != a.files[k])
  }

  lemma {:induction false} PassFromConfined(entries: seq<Entry>, turn: (Progress, Entry) -> Pass, at: Entry -> string,
                                            inside: string -> bool, p: Progress, i: nat, k: string)
    requires i <= |entries| && Leaves(turn) && Writes(turn, at) && Unoccupied(turn, at) && Lands(turn, at, inside)
    requires Changed(p.fs, PassFrom(entries, turn, p, i).Final(), k)
    ensures inside(k) && k !in p.fs.dirs
    decreases |entries| - i
  {
    if i < |entries| && turn(p, entries[i]).Going? {
      var q := turn(p, entries[i]).progress;
      if !Changed(q.fs, PassFrom(entries, turn, q, i + 1).Final(), k) {
        assert Changed(p.fs, q.fs, k);
      } else {
        PassFromConfined(entries, turn, at, inside, q, i + 1, k);
      }
    }
  }

  /** Every file the loop creates or changes lies where the entries land, and is
      none of the directories it started with. */
  lemma RunConfined(entries: seq<Entry>, turn: (Progress, Entry) -> Pass, at: Entry -> string,
                    inside: string -> bool, start: Fs, k: string)
    requires Leaves(turn) && Writes(turn, at) && Unoccupied(turn, at) && Lands(turn, at, inside)
    requires Changed(start, Run(entries, turn, start).Final(), k)
    ensures inside(k) && k !in start.dirs
  {
    PassFromConfined(entries, turn, at, inside, Progress(start, 0, 0), 0, k);
  }

  /** The files after writing the entries from i on, in order, each to at(e). */
  function PlacedFrom(files: map<string, Text>, entries: seq<Entry>, at: Entry -> string, i: nat): map<string, Text>
    requires i <= |entries|
    decreases |entries| - i
  {
    if i == |entries| then files else PlacedFrom(files[at(entries[i]) := entries[i].content], entries, at, i + 1)
  }

  /** The files after writing every entry, in order, each to at(e). */
  function Placed(files: map<string, Text>, entries: seq<Entry>, at: Entry -> string): map<string, Text>
  {
    PlacedFrom(files, entries, at, 0)
  }

  lemma {:induction false} PlacedFromKeeps(files: map<string, Text>, entries: seq<Entry>, at: Entry -> string,
                                           i: nat, k: string)
    requires i <= |entries|
    ensures k in files ==> k in PlacedFrom(files, entries, at, i)
    ensures (forall j :: i <= j < |entries| ==> at(entries[j]) != k) ==>
      (k in PlacedFrom(files, entries, at, i) <==> k in files)
      && (k in files ==> PlacedFrom(files, entries, at, i)[k] == files[k])
    decreases |entries| - i
  {
    if i < |entries| {
      PlacedFromKeeps(files[at(entries[i]) := entries[i].content], entries, at, i + 1, k);
    }
  }

  lemma {:induction false} PlacedFromLast(files: map<string, Text>, entries: seq<Entry>, at: Entry -> string,
                                          i: nat, j: nat)
    requires i <= j < |entries|
    requires forall l :: j < l < |entries| ==> at(entries[l]) != at(entries[j])
    ensures at(entries[j]) in PlacedFrom(files, entries, at, i)
    ensures PlacedFrom(files, entries, at, i)[at(entries[j])] == entries[j].content
    decreases |entries| - i
  {
    var next := files[at(entries[i]) := entries[i].content];
    if i < j {
      PlacedFromLast(next, entries, at, i + 1, j);
    } else {
      PlacedFromKeeps(next, entries, at, i + 1, at(entries[j]));
    }
  }

  /** Writing the entries in order removes no file; a path no entry goes to keeps
      its file, or its absence; a path entries go to holds the content of the last
      of them. */
  lemma PlacedContents(files: map<string, Text>, entries: seq<Entry>, at: Entry -> string, k: string)
    ensures files.Keys <= Placed(files, entries, at).Keys
    ensures (forall j :: 0 <= j < |entries| ==> at(entries[j]) != k) ==>
      (k in Placed(files, entries, at) <==> k in files)
      && (k in files ==> Placed(files, entries, at)[k] == files[k])
    ensures forall j :: 0 <= j < |entries| && at(entries[j]) == k
                        && (forall l :: j < l < |entries| ==> at(entries[l]) != k) ==>
      k in Placed(files, entries, at) && Placed(files, entries, at)[k] == entries[j].content
  {
    forall k' | k' in files {
      PlacedFromKeeps(files, entries, at, 0, k');
    }
    PlacedFromKeeps(files, entries, at, 0, k);
    forall j | 0 <= j < |entries| && at(entries[j]) == k && (forall l :: j < l < |entries| ==> at(entries[l]) != k) {
      PlacedFromLast(files, entries, at, 0, j);
    }
  }

  lemma {:induction false} PassFromPlaced(entries: seq<Entry>, turn: (Progress, Entry) -> Pass, at: Entry -> string,
                                          p: Progress, i: nat)
    requires i <= |entries| && Writes(turn, at)
    ensures PassFrom(entries, turn, p, i).Going? ==>
      PassFrom(entries, turn, p, i).progress.fs.files == PlacedFrom(p.fs.files, entries, at, i)
    decreases |entries| - i
  {
    if i < |entries| && turn(p, entries[i]).Going? {
      PassFromPlaced(entries, turn, at, turn(p, entries[i]).progress, i + 1);
    }
  }

  /** A loop that finishes leaves exactly the files of writing every entry in order,
      whatever existed at their destinations. */
  lemma RunPlaced(entries: seq<Entry>, turn: (Progress, Entry) -> Pass, at: Entry -> string, start: Fs)
    requires Writes(turn, at)
    ensures Run(entries, turn, start).Going? ==>
      Run(entries, turn, start).progress.fs.files == Placed(start.files, entries, at)
  {
    PassFromPlaced(entries, turn, at, Progress(start, 0, 0), 0);
  }

  // ---------------------------------------------------------------------------
  // The loop of the handler: a turn under the target directory

  /** Where an entry lands under targetDir: its full path, or "" when it has none. */
  function DestPath(targetDir: string): Entry -> string
    requires IsAbsolute(targetDir)
  {
    (e: Entry) => match Destination(targetDir, e.key)
         case Ok(d) => d.1
         case Err(_) => ""
  }

  /** A path at or below `base`. */
  predicate Under(k: string, base: string) {
    k == base || StartsWith(k, base + "/")
  }

  /** A turn under targetDir throws the refusal of the entry's path, or, when
      something exists at its destination and overwriting is off, the refusal to
      overwrite, leaving the filesystem alone; otherwise it throws whatever mkdir
      or writeFile rejects with, keeping the files. A turn that goes on counts the
      entry and sets the one file at its destination, where no directory stood and,
      without overwrite, nothing at all; that file lies at or below the resolved
      target. */
  lemma TurnStep(targetDir: string, overwrite: bool, p: Progress, e: Entry)
    requires IsAbsolute(targetDir)
    ensures var next := Turn(targetDir, overwrite)(p, e);
            var d := Destination(targetDir, e.key);
            var base := Resolve(targetDir, "");
      && (d.Err? ==> next == Aborted(ToolFailure(d.error), p.fs))
      && (d.Ok? && !overwrite && Exists(p.fs, d.value.1) ==> next == Aborted(ToolFailure(RefuseOverwrite(d.value.0)), p.fs))
      && (next.Aborted? ==> next.left.files == p.fs.files && p.fs.dirs <= next.left.dirs
                            && (next.error.ToolFailure? || next.error.PlainError?))
      && (next.Going? ==>
            && d.Ok? && (overwrite || !Exists(p.fs, d.value.1))
            && next.progress.filesWritten == p.filesWritten + 1
            && next.progress.bytesWritten == p.bytesWritten + ByteLength(e.content)
            && next.progress.fs.files == p.fs.files[d.value.1 := e.content]
            && p.fs.dirs <= next.progress.fs.dirs
            && d.value.1 !in p.fs.dirs
            && Under(d.value.1, base))
  {
    var d := Destination(targetDir, e.key);
    if d.Ok? {
      var (normalized, full) := d.value;
      assert Under(full, Resolve(targetDir, "")) by {
        assert SafeJoin(targetDir, normalized) == Ok(full);
      }
      if overwrite || !Exists(p.fs, full) {
        PlaceStep(p, full, e);
      }
    }
  }

  /** Making the directory and writing the file either fails, keeping every file,
      or sets the one file at full, where no directory stood. */
  lemma PlaceStep(p: Progress, full: string, e: Entry)
    ensures var next := Place(p, full, e);
      && (next.Aborted? ==> next.left.files == p.fs.files && p.fs.dirs <= next.left.dirs && next.error.PlainError?)
      && (next.Going? ==>
            && next.progress == Progress(next.progress.fs, p.filesWritten + 1, p.bytesWritten + ByteLength(e.content))
            && next.progress.fs.files == p.fs.files[full := e.content]
            && p.fs.dirs <= next.progress.fs.dirs && full !in p.fs.dirs)
  {
  }

  /** The turn under targetDir has every one-step property the loop's promises need. */
  lemma TurnObeys(targetDir: string, overwrite: bool)
    requires IsAbsolute(targetDir)
    ensures var turn := Turn(targetDir, overwrite);
            var base := Resolve(targetDir, "");
      && Counts(turn) && Leaves(turn) && Writes(turn, DestPath(targetDir)) && Unoccupied(turn, DestPath(targetDir))
      && Lands(turn, DestPath(targetDir), k => Under(k, base))
      && (!overwrite ==> Fresh(turn, DestPath(targetDir)))
  {
    var turn := Turn(targetDir, overwrite);
    var base := Resolve(targetDir, "");
    forall p: Progress, e: Entry
      ensures turn(p, e).Going? ==>
        && turn(p, e).progress.filesWritten == p.filesWritten + 1
        && turn(p, e).progress.bytesWritten == p.bytesWritten + ByteLength(e.content)
        && turn(p, e).progress.fs.files == p.fs.files[DestPath(targetDir)(e) := e.content]
        && p.fs.dirs <= turn(p, e).progress.fs.dirs
        && DestPath(targetDir)(e) !in p.fs.dirs
        && Under(DestPath(targetDir)(e), base)
        && (!overwrite ==> !Exists(p.fs, DestPath(targetDir)(e)))
      ensures turn(p, e).Aborted? ==> turn(p, e).left.files == p.fs.files && p.fs.dirs <= turn(p, e).left.dirs
    {
      TurnStep(targetDir, overwrite, p, e);
    }
  }

  /** The key "./" passes ensureRelativePath as written and joins to the target
      itself, which is a directory by then: without overwrite it is refused as an
      existing file, and with overwrite writeFile rejects it with EISDIR once mkdir
      of its parent succeeds. Either way nothing is written. */
  lemma RootKeyNeverWrites(targetDir: string, overwrite: bool, p: Progress, e: Entry)
    requires IsAbsolute(targetDir) && EnsureRelativePathAsWritten(e.key) == Ok("./")
    requires Resolve(targetDir, "") in p.fs.dirs
    ensures var next := Turn(targetDir, overwrite)(p, e);
            var base := Resolve(targetDir, "");
      && next.Aborted? && next.left.files == p.fs.files
      && (!overwrite ==> next == Aborted(ToolFailure(RefuseOverwrite("./")), p.fs))
      && (overwrite && MkdirFault(p.fs, Dirname(base)).None? ==>
            next == Aborted(FaultError(FsFault(IsADirectory, "open", base)), WithDirs(p.fs, Dirname(base))))
  {
    RootReferenceJoinsToBase(targetDir);
  }

  /** An entry whose parent directory is an existing file, such as "a/b.md" after
      "a", is rejected by mkdir with EEXIST, and nothing changes. */
  lemma ParentIsFile(targetDir: string, overwrite: bool, p: Progress, e: Entry)
    requires IsAbsolute(targetDir) && Destination(targetDir, e.key).Ok?
    requires Dirname(Destination(targetDir, e.key).value.1) in p.fs.files
    requires !Exists(p.fs, Destination(targetDir, e.key).value.1)
    ensures Turn(targetDir, overwrite)(p, e)
      == Aborted(FaultError(FsFault(AlreadyExists, "mkdir", Dirname(Destination(targetDir, e.key).value.1))), p.fs)
  {
  }

  /** A hydration that finishes has written every entry and counted all their bytes. */
  lemma HydrateCounts(entries: seq<Entry>, targetDir: string, overwrite: bool, start: Fs)
    requires IsAbsolute(targetDir)
    ensures var r := Run(entries, Turn(targetDir, overwrite), start);
      r.Going? ==> r.progress.filesWritten == |entries| && r.progress.bytesWritten == BytesFrom(entries, 0)
  {
    TurnObeys(targetDir, overwrite);
    RunCounts(entries, Turn(targetDir, overwrite), start);
  }

  /** The pass `r` is how an entry e thrown under targetDir stops the loop, from
      the filesystem `before`: its path was refused, or without overwrite its
      destination exists, or mkdir or writeFile rejected it; the files stay. */
  ghost predicate Threw(targetDir: string, overwrite: bool, before: Fs, e: Entry, r: Pass)
    requires IsAbsolute(targetDir)
  {
    var d := Destination(targetDir, e.key);
    && r.Aborted?
    && r.left.files == before.files && before.dirs <= r.left.dirs
    && (d.Err? ==> r.error == ToolFailure(d.error))
    && (d.Ok? && !overwrite && Exists(before, d.value.1) ==> r.error == ToolFailure(RefuseOverwrite(d.value.0)))
    && (d.Ok? && (overwrite || !Exists(before, d.value.1)) ==> r.error.PlainError?)
  }

  lemma TurnThrew(targetDir: string, overwrite: bool, p: Progress, e: Entry, r: Pass)
    requires IsAbsolute(targetDir) && r == Turn(targetDir, overwrite)(p, e) && r.Aborted?
    ensures Threw(targetDir, overwrite, p.fs, e, r)
  {
    TurnStep(targetDir, overwrite, p, e);
  }

  /** A hydration that stops, stops at the first entry that throws, with every
      entry before it written: its path was refused, or without overwrite its
      destination exists, or mkdir or writeFile rejected it; the files written
      before it stay as they were. */
  lemma HydrateFirstFailure(entries: seq<Entry>, targetDir: string, overwrite: bool, start: Fs)
    requires IsAbsolute(targetDir) && Run(entries, Turn(targetDir, overwrite), start).Aborted?
    ensures exists k :: (0 <= k < |entries| && Run(entries[..k], Turn(targetDir, overwrite), start).Going?
      && Threw(targetDir, overwrite, Run(entries[..k], Turn(targetDir, overwrite), start).progress.fs, entries[k],
               Run(entries, Turn(targetDir, overwrite), start)))
  {
    var turn := Turn(targetDir, overwrite);
    assert Leaves(turn) by { TurnObeys(targetDir, overwrite); }
    FirstFailure(entries, turn, start);
    var k :| 0 <= k < |entries| && Run(entries[..k], turn, start).Going?
             && turn(Run(entries[..k], turn, start).progress, entries[k]) == Run(entries, turn, start);
    TurnThrew(targetDir, overwrite, Run(entries[..k], turn, start).progress, entries[k], Run(entries, turn, start));
  }

  /** Without overwrite, no file that existed is replaced or removed, whichever way
      the hydration ends. */
  lemma HydrateKeepsExisting(entries: seq<Entry>, targetDir: string, start: Fs)
    requires IsAbsolute(targetDir)
    ensures Grows(start, Run(entries, Turn(targetDir, false), start).Final())
  {
    TurnObeys(targetDir, false);
    RunKeepsExisting(entries, Turn(targetDir, false), DestPath(targetDir), start);
  }

  /** Without overwrite, a hydration that finishes leaves each entry's content at its
      destination, and no two entries share a destination. */
  lemma HydratePlaces(entries: seq<Entry>, targetDir: string, start: Fs, j: nat, k: nat)
    requires IsAbsolute(targetDir) && j < |entries| && k < |entries|
    requires Run(entries, Turn(targetDir, false), start).Going?
    ensures var fs := Run(entries, Turn(targetDir, false), start).progress.fs;
            var at := DestPath(targetDir);
      && at(entries[j]) in fs.files && fs.files[at(entries[j])] == entries[j].content
      && (j != k ==> at(entries[j]) != at(entries[k]))
  {
    var turn := Turn(targetDir, false);
    TurnObeys(targetDir, false);
    RunPlaces(entries, turn, DestPath(targetDir), start, j);
    if j < k {
      RunDistinct(entries, turn, DestPath(targetDir), start, j, k);
    } else if k < j {
      RunDistinct(entries, turn, DestPath(targetDir), start, k, j);
    }
  }

  /** Every file a hydration creates or changes lies at or below the resolved target
      directory, and strictly below it once that is a directory. */
  lemma HydrateConfined(entries: seq<Entry>, targetDir: string, overwrite: bool, start: Fs, k: string)
    requires IsAbsolute(targetDir)
    requires Changed(start, Run(entries, Turn(targetDir, overwrite), start).Final(), k)
    ensures Under(k, Resolve(targetDir, ""))
    ensures Resolve(targetDir, "") in start.dirs ==> StartsWith(k, Resolve(targetDir, "") + "/")
  {
    var turn := Turn(targetDir, overwrite);
    var base := Resolve(targetDir, "");
    TurnObeys(targetDir, overwrite);
    RunConfined(entries, turn, DestPath(targetDir), k => Under(k, base), start, k);
  }

  /** Whether or not it overwrites, a hydration that finishes leaves exactly the
      files of writing each entry's content to its destination, in order; one that
      stops leaves those of the entries before the one that threw. */
  lemma HydrateWrites(entries: seq<Entry>, targetDir: string, overwrite: bool, start: Fs)
    requires IsAbsolute(targetDir)
    ensures var r := Run(entries, Turn(targetDir, overwrite), start);
      && (r.Going? ==> r.progress.fs.files == Placed(start.files, entries, DestPath(targetDir)))
      && (r.Aborted? ==> exists n :: (0 <= n < |entries| && Run(entries[..n], Turn(targetDir, overwrite), start).Going?
                                      && r.left.files == Placed(start.files, entries[..n], DestPath(targetDir))))
  {
    var turn := Turn(targetDir, overwrite);
    var at := DestPath(targetDir);
    assert Writes(turn, at) && Leaves(turn) by { TurnObeys(targetDir, overwrite); }
    RunPlaced(entries, turn, at, start);
    if Run(entries, turn, start).Aborted? {
      FirstFailure(entries, turn, start);
      var n :| 0 <= n < |entries| && Run(entries[..n], turn, start).Going?
               && Run(entries, turn, start).left.files == Run(entries[..n], turn, start).progress.fs.files;
      RunPlaced(entries[..n], turn, at, start);
    }
  }

  /** A resolved path resolves to itself. */
  lemma ResolveResolved(cwd: string, x: string)
    requires IsAbsolute(cwd)
    ensures IsAbsolute(Resolve(cwd, x)) && Resolve(Resolve(cwd, x), "") == Resolve(cwd, x)
  {
    var joined := if x == "" then cwd + "/" else if x[0] == '/' then x + "/" else cwd + "/" + x + "/";
    NormalizedSegments(joined, false);
    ResolveAlone(Fold([], Split(joined), false));
  }

  /** mkdir(d, { recursive: true }) makes d itself a directory. */
  lemma DirChainHasItself(d: string)
    requires d != ""
    ensures d in DirChain(d)
  {
    assert d[..|d|] == d;
  }

  // ---------------------------------------------------------------------------
  // The handler

  datatype SourceKind = Archive | Tree

  /** What resolveShelfSource answers: its kind, the files in the order of their
      keys, and the archive version for an archive. */
  datatype ShelfSource = ShelfSource(kind: SourceKind, files: seq<Entry>, archiveVersion: Option<string>)

  datatype HydrateInput = HydrateInput(shelfId: string, targetDir: string, overwrite: Option<bool>)

  datatype HydrateOutput = HydrateOutput(
    shelfId: string,
    sourceKind: SourceKind,
    targetDir: string,
    filesWritten: nat,
    bytesWritten: nat,
    archiveVersion: Option<string>)

  function HydrateSummary(files: nat, targetDir: string): string {
    "Hydrated " + NatToDecimal(files) + " files to " + targetDir
  }

  /** The handler's reply and the filesystem it leaves. `source` is the outcome of
      getApiKey and resolveShelfSource, `cwd` the directory path.resolve starts from. */
  function HydrateResponse(input: HydrateInput, source: Result<ShelfSource, Thrown>, cwd: string, fs: Fs)
    : (ToolResult<HydrateOutput>, Fs)
    requires IsAbsolute(cwd)
  {
    match source
    case Err(thrown) => (ErrorResult(thrown), fs)
    case Ok(src) =>
      var overwrite := input.overwrite.GetOr(false);
      var targetDir := Resolve(cwd, input.targetDir);
      match MkdirFault(fs, targetDir)
      case Some(f) => (ErrorResult(FaultError(f)), fs)
      case None =>
        match Run(src.files, Turn(targetDir, overwrite), WithDirs(fs, targetDir))
        case Aborted(e, left) => (ErrorResult(e), left)
        case Going(p) =>
          (SuccessResult(HydrateSummary(p.filesWritten, targetDir),
             HydrateOutput(input.shelfId, src.kind, targetDir, p.filesWritten, p.bytesWritten,
                           if src.kind == Archive then src.archiveVersion else None)),
           p.fs)
  }

  /** The hydrate_shelf handler. */
  method HandleHydrate(fsys: FileSystem, input: HydrateInput, source: Result<ShelfSource, Thrown>, cwd: string)
    returns (result: ToolResult<HydrateOutput>)
    requires IsAbsolute(cwd)
    modifies fsys
    ensures (result, fsys.State()) == HydrateResponse(input, source, cwd, old(fsys.State()))
  {
    if source.Err? {
      return ErrorResult(source.error);
    }
    var overwrite := input.overwrite.GetOr(false);
    var targetDir := Resolve(cwd, input.targetDir);
    var fault := fsys.Mkdir(targetDir);
    if fault.Some? {
      return ErrorResult(FaultError(fault.value));
    }
    TurnTurns(targetDir, overwrite);
    var outcome := WriteEntries(fsys, source.value.files, targetDir, overwrite, Turn(targetDir, overwrite));
    if outcome.Err? {
      return ErrorResult(outcome.error);
    }
    var (filesWritten, bytesWritten) := outcome.value;
    result := SuccessResult(HydrateSummary(filesWritten, targetDir),
      HydrateOutput(input.shelfId, source.value.kind, targetDir, filesWritten, bytesWritten,
                    if source.value.kind == Archive then source.value.archiveVersion else None));
  }

  /** What the reply says: a failed source changes nothing; a hydration that
      finishes reports every entry and all their bytes under the resolved target,
      and the archive version only for an archive; one that stops reports, through
      errorResult, what mkdir of the target threw, or what the entry it stopped at
      threw, keeping the files written before it. */
  lemma HydrateReply(input: HydrateInput, source: Result<ShelfSource, Thrown>, cwd: string, fs: Fs)
    requires IsAbsolute(cwd)
    ensures var (result, after) := HydrateResponse(input, source, cwd, fs);
      && (source.Err? ==> result.Failure? && after == fs)
      && (source.Ok? && result.Success? ==>
            && result.content.targetDir == Resolve(cwd, input.targetDir)
            && result.content.filesWritten == |source.value.files|
            && result.content.bytesWritten == BytesFrom(source.value.files, 0)
            && (result.content.archiveVersion.Some? ==> source.value.kind == Archive)
            && result.text == HydrateSummary(|source.value.files|, Resolve(cwd, input.targetDir)))
      && (source.Ok? && result.Failure? ==>
            var targetDir := Resolve(cwd, input.targetDir);
            var made := MkdirFault(fs, targetDir);
            var pass := Run(source.value.files, Turn(targetDir, input.overwrite.GetOr(false)), WithDirs(fs, targetDir));
            || (made.Some? && result.error == SerializeToolError(ToMcpToolError(FaultError(made.value), "Tool execution failed"))
                && after == fs)
            || (made.None? && pass.Aborted?
                && result.error == SerializeToolError(ToMcpToolError(pass.error, "Tool execution failed"))
                && after == pass.left))
  {
    if source.Ok? {
      var targetDir := Resolve(cwd, input.targetDir);
      HydrateCounts(source.value.files, targetDir, input.overwrite.GetOr(false), WithDirs(fs, targetDir));
    }
  }

  /** Every file the handler creates or changes lies strictly below the resolved
      target directory: never the target itself, never outside it. */
  lemma HydrateStaysInside(input: HydrateInput, source: Result<ShelfSource, Thrown>, cwd: string, fs: Fs, k: string)
    requires IsAbsolute(cwd)
    requires Changed(fs, HydrateResponse(input, source, cwd, fs).1, k)
    ensures StartsWith(k, Resolve(cwd, input.targetDir) + "/")
  {
    var targetDir := Resolve(cwd, input.targetDir);
    var start := WithDirs(fs, targetDir);
    ResolveResolved(cwd, input.targetDir);
    DirChainHasItself(targetDir);
    HydrateConfined(source.value.files, targetDir, input.overwrite.GetOr(false), start, k);
  }

  /** Without overwrite, every file that existed before keeps its content, whichever
      way the handler ends. */
  lemma HydrateKeepsFiles(input: HydrateInput, source: Result<ShelfSource, Thrown>, cwd: string, fs: Fs, k: string)
    requires IsAbsolute(cwd) && input.overwrite.GetOr(false) == false && k in fs.files
    ensures var after := HydrateResponse(input, source, cwd, fs).1;
      k in after.files && after.files[k] == fs.files[k]
  {
    if source.Ok? {
      var targetDir := Resolve(cwd, input.targetDir);
      HydrateKeepsExisting(source.value.files, targetDir, WithDirs(fs, targetDir));
    }
  }

  /** Whether or not it overwrites, a hydration that finishes leaves at each entry's
      destination the content of the last entry that goes there. */
  lemma HydrateLastWins(entries: seq<Entry>, targetDir: string, overwrite: bool, start: Fs, j: nat)
    requires IsAbsolute(targetDir) && j < |entries|
    requires Run(entries, Turn(targetDir, overwrite), start).Going?
    requires forall l :: j < l < |entries| ==> DestPath(targetDir)(entries[l]) != DestPath(targetDir)(entries[j])
    ensures var fs := Run(entries, Turn(targetDir, overwrite), start).progress.fs;
      DestPath(targetDir)(entries[j]) in fs.files && fs.files[DestPath(targetDir)(entries[j])] == entries[j].content
  {
    HydrateWrites(entries, targetDir, overwrite, start);
    PlacedContents(start.files, entries, DestPath(targetDir), DestPath(targetDir)(entries[j]));
  }

  /** Writing entries none of which goes to path keeps path's file, and writing
      any entries removes no file. */
  lemma PlacedKeeps(files: map<string, Text>, entries: seq<Entry>, at: Entry -> string, path: string)
    ensures files.Keys <= Placed(files, entries, at).Keys
    ensures (forall j :: 0 <= j < |entries| ==> at(entries[j]) != path) && path in files ==>
      Placed(files, entries, at)[path] == files[path]
  {
    PlacedContents(files, entries, at, path);
  }

  /** Whether or not it overwrites, a hydration removes no file, and a file no entry
      goes to keeps its content, whichever way the hydration ends. */
  lemma HydrateKeepsOthers(entries: seq<Entry>, targetDir: string, overwrite: bool, start: Fs, path: string)
    requires IsAbsolute(targetDir)
    ensures var after := Run(entries, Turn(targetDir, overwrite), start).Final();
      && start.files.Keys <= after.files.Keys
      && ((forall j :: 0 <= j < |entries| ==> DestPath(targetDir)(entries[j]) != path) && path in start.files ==>
            after.files[path] == start.files[path])
  {
    var turn := Turn(targetDir, overwrite);
    var at := DestPath(targetDir);
    var r := Run(entries, turn, start);
    HydrateWrites(entries, targetDir, overwrite, start);
    if r.Going? {
      PlacedKeeps(start.files, entries, at, path);
    } else {
      var n :| 0 <= n < |entries| && Run(entries[..n], turn, start).Going?
               && r.left.files == Placed(start.files, entries[..n], at);
      PrefixKeeps(start.files, entries, n, at, path);
    }
  }

  lemma PrefixKeeps(files: map<string, Text>, entries: seq<Entry>, n: nat, at: Entry -> string, path: string)
    requires n <= |entries|
    ensures files.Keys <= Placed(files, entries[..n], at).Keys
    ensures (forall j :: 0 <= j < |entries| ==> at(entries[j]) != path) && path in files ==>
      Placed(files, entries[..n], at)[path] == files[path]
  {
    var done := entries[..n];
    PlacedKeeps(files, done, at, path);
    assert forall j :: 0 <= j < |done| ==> done[j] == entries[j];
  }

  /** Whether or not it overwrites, the handler removes no file, and a file no entry
      goes to keeps its content, whichever way it ends; when it succeeds the files
      are exactly those of writing each entry's content to its destination in
      order, so a destination two entries share holds the later one. */
  lemma HydrateFiles(input: HydrateInput, source: Result<ShelfSource, Thrown>, cwd: string, fs: Fs, path: string)
    requires IsAbsolute(cwd) && source.Ok?
    ensures var (result, after) := HydrateResponse(input, source, cwd, fs);
            var at := DestPath(Resolve(cwd, input.targetDir));
            var entries := source.value.files;
      && fs.files.Keys <= after.files.Keys
      && (result.Success? ==> after.files == Placed(fs.files, entries, at))
      && ((forall j :: 0 <= j < |entries| ==> at(entries[j]) != path) && path in fs.files ==>
            after.files[path] == fs.files[path])
  {
    var targetDir := Resolve(cwd, input.targetDir);
    if MkdirFault(fs, targetDir).None? {
      var start := WithDirs(fs, targetDir);
      HydrateWrites(source.value.files, targetDir, input.overwrite.GetOr(false), start);
      HydrateKeepsOthers(source.value.files, targetDir, input.overwrite.GetOr(false), start, path);
    }
  }
}
