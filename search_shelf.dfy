/** The search_shelf tool of src/tools/search-shelf.ts: the line matcher and the
    bounded scan over a shelf's files, with its file, byte and match budgets. */
module SearchShelf {
  import opened Wrappers
  import opened Js
  import opened Utf16
  import opened Errors
  import opened Common

  // ---------------------------------------------------------------------------
  // Lines: content.split(/\r?\n/)

  const LF: CodeUnit := 10
  const CR: CodeUnit := 13

  /** The pieces of s between line feeds. */
  function SplitLF(s: Text): (r: seq<Text>)
    ensures |r| >= 1
  {
    if s == [] then [[]]
    else
      var rest := SplitLF(s[1..]);
      if s[0] == LF then [[]] + rest else [[s[0]] + rest[0]] + rest[1..]
  }

  /** The pieces joined back with line feeds. */
  function JoinLF(pieces: seq<Text>): Text
    requires |pieces| >= 1
  {
    if |pieces| == 1 then pieces[0] else pieces[0] + [LF] + JoinLF(pieces[1..])
  }

  function CountLF(s: Text): nat {
    if s == [] then 0 else (if s[0] == LF then 1 else 0) + CountLF(s[1..])
  }

  /** Splitting on line feeds loses nothing: joining the pieces gives the text back. */
  lemma {:induction false} SplitLFJoin(s: Text)
    ensures JoinLF(SplitLF(s)) == s
    ensures |SplitLF(s)| == CountLF(s) + 1
  {
    if s != [] {
      var rest := SplitLF(s[1..]);
      SplitLFJoin(s[1..]);
      if s[0] == LF {
        assert ([[]] + rest)[1..] == rest;
        assert [] + [LF] + s[1..] == s;
      } else if |rest| == 1 {
        assert [s[0]] + s[1..] == s;
      } else {
        var p := [[s[0]] + rest[0]] + rest[1..];
        assert p[1..] == rest[1..];
        assert JoinLF(rest) == rest[0] + [LF] + JoinLF(rest[1..]);
        assert [s[0]] + rest[0] + [LF] + JoinLF(rest[1..]) == [s[0]] + JoinLF(rest);
      }
    }
  }

  predicate EndsWithCR(piece: Text) {
    |piece| > 0 && piece[|piece| - 1] == CR
  }

  /** A piece that ended at "\r\n" loses its carriage return: exactly one, and only
      when there is one. */
  function DropCR(piece: Text): (r: Text)
    ensures EndsWithCR(piece) ==> piece == r + [CR]
    ensures !EndsWithCR(piece) ==> r == piece
  {
    if EndsWithCR(piece) then piece[..|piece| - 1] else piece
  }

  /** content.split(/\r?\n/): split at each line feed, and drop one carriage return
      just before it; a carriage return not followed by a line feed stays. */
  function SplitLines(content: Text): (r: seq<Text>)
    ensures |r| == |SplitLF(content)| >= 1
    ensures forall i :: 0 <= i < |r| - 1 ==>
      SplitLF(content)[i] == r[i] + (if EndsWithCR(SplitLF(content)[i]) then [CR] else [])
    ensures r[|r| - 1] == SplitLF(content)[|r| - 1]
  {
    var pieces := SplitLF(content);
    seq(|pieces|, i requires 0 <= i < |pieces| => if i < |pieces| - 1 then DropCR(pieces[i]) else pieces[i])
  }

  /** No piece holds a line feed. */
  lemma {:induction false} SplitLFPieces(s: Text, i: nat)
    requires i < |SplitLF(s)|
    ensures LF !in SplitLF(s)[i]
  {
    if s != [] {
      if s[0] == LF {
        if i > 0 {
          SplitLFPieces(s[1..], i - 1);
        }
      } else if i == 0 {
        SplitLFPieces(s[1..], 0);
      } else {
        SplitLFPieces(s[1..], i);
      }
    }
  }

  /** Each line is its piece of the text between line feeds, less a carriage return
      that ended it if it is not the last; no line holds a line feed. */
  lemma SplitLinesPieces(content: Text, i: nat)
    requires i < |SplitLines(content)|
    ensures LF !in SplitLines(content)[i]
    ensures i < |SplitLines(content)| - 1 ==>
      SplitLF(content)[i] == SplitLines(content)[i] + (if EndsWithCR(SplitLF(content)[i]) then [CR] else [])
    ensures i == |SplitLines(content)| - 1 ==> SplitLF(content)[i] == SplitLines(content)[i]
  {
    SplitLFPieces(content, i);
  }

  /** Text with no carriage return splits into lines that join back to it, one line
      per line feed plus one. */
  lemma SplitLinesWithoutCR(content: Text)
    requires CR !in content
    ensures JoinLF(SplitLines(content)) == content
    ensures |SplitLines(content)| == CountLF(content) + 1
  {
    var pieces := SplitLF(content);
    SplitLFJoin(content);
    forall i | 0 <= i < |pieces| - 1 ensures DropCR(pieces[i]) == pieces[i] {
      CRFreePieces(content, i);
    }
    assert SplitLines(content) == pieces;
  }

  lemma {:induction false} CRFreePieces(s: Text, i: nat)
    requires CR !in s && i < |SplitLF(s)|
    ensures CR !in SplitLF(s)[i]
  {
    if s != [] {
      var rest := SplitLF(s[1..]);
      if s[0] == LF {
        if i > 0 {
          CRFreePieces(s[1..], i - 1);
        }
      } else if i == 0 {
        CRFreePieces(s[1..], 0);
      } else {
        CRFreePieces(s[1..], i);
      }
    }
  }

  // ---------------------------------------------------------------------------
  // The matcher: buildMatcher

  datatype Mode = Substring | Regex

  /** The line test buildMatcher returns. */
  type Matcher = Text -> bool

  /** toLowerCase on code units, restricted to the ASCII letters. */
  function LowerUnit(u: CodeUnit): CodeUnit {
    if 65 <= u <= 90 then u + 32 else u
  }

  function LowerText(s: Text): (r: Text)
    ensures |r| == |s| && forall i :: 0 <= i < |s| ==> r[i] == LowerUnit(s[i])
  {
    seq(|s|, i requires 0 <= i < |s| => LowerUnit(s[i]))
  }

  predicate OccursAt(haystack: Text, needle: Text, i: int) {
    0 <= i && i + |needle| <= |haystack| && haystack[i..i + |needle|] == needle
  }

  /** String.prototype.includes */
  predicate Includes(haystack: Text, needle: Text) {
    exists i :: 0 <= i <= |haystack| && OccursAt(haystack, needle, i)
  }

  const InvalidRegexMessage := "Invalid regular expression"

  /** buildMatcher. `compile` stands for new RegExp(query, caseSensitive ? "" : "i"):
      None when the pattern does not compile, else the RegExp's test. */
  function BuildMatcher(query: Text, mode: Mode, caseSensitive: bool,
                        compile: (Text, bool) -> Option<Matcher>): (r: Result<Matcher, ToolError>)
    ensures r.Err? <==> mode == Regex && compile(query, caseSensitive).None?
    ensures r.Err? ==> r.error == InputFailure(InvalidRegexMessage)
    ensures r.Ok? && mode == Regex ==>
      forall line :: r.value(line) == compile(query, caseSensitive).value(line)
    ensures mode == Substring && caseSensitive ==>
      forall line :: r.value(line) <==> Includes(line, query)
    ensures mode == Substring && !caseSensitive ==>
      forall line :: r.value(line) <==> Includes(LowerText(line), LowerText(query))
  {
    if mode == Regex then
      match compile(query, caseSensitive)
      case None => Err(InputFailure(InvalidRegexMessage))
      case Some(test) => Ok(test)
    else
      var needle := if caseSensitive then query else LowerText(query);
      Ok((line: Text) => Includes(if caseSensitive then line else LowerText(line), needle))
  }

  lemma LowerOccurs(haystack: Text, needle: Text, i: int)
    requires OccursAt(haystack, needle, i)
    ensures OccursAt(LowerText(haystack), LowerText(needle), i)
  {
    var h := LowerText(haystack);
    var n := LowerText(needle);
    forall k | 0 <= k < |needle| ensures h[i + k] == n[k] {
      assert haystack[i + k] == haystack[i..i + |needle|][k];
    }
    assert h[i..i + |n|] == n;
  }

  /** Without case sensitivity, a line that contains the query verbatim matches, and
      the case of the query does not matter. */
  lemma CaseInsensitiveMatch(query: Text, line: Text, compile: (Text, bool) -> Option<Matcher>)
    ensures var m := BuildMatcher(query, Substring, false, compile).value;
      (Includes(line, query) ==> m(line))
      && (m(line) <==> BuildMatcher(LowerText(query), Substring, false, compile).value(line))
  {
    if Includes(line, query) {
      var i :| OccursAt(line, query, i);
      LowerOccurs(line, query, i);
    }
    assert LowerText(LowerText(query)) == LowerText(query);
  }

  // ---------------------------------------------------------------------------
  // The scan

  /** One entry of the shelf source: a file path and its content. */
  datatype File = File(path: string, content: Text)

  datatype Match = Match(path: string, line: Text, lineNumber: nat, snippet: Text)

  datatype Scan = Scan(matches: seq<Match>, scannedFiles: nat, scannedBytes: nat, truncated: bool)

  const SnippetLength := 300

  /** line.slice(0, 300) */
  function Snippet(line: Text): (r: Text)
    ensures |r| <= SnippetLength && |r| <= |line| && r == line[..|r|]
    ensures |line| <= SnippetLength ==> r == line
  {
    if |line| <= SnippetLength then line else line[..SnippetLength]
  }

  /** The matches among the first n lines, in line order; line numbers count from 1. */
  function LineMatches(path: string, lines: seq<Text>, m: Matcher, n: nat): seq<Match>
    requires n <= |lines|
  {
    if n == 0 then []
    else
      LineMatches(path, lines, m, n - 1)
      + (if m(lines[n - 1]) then [Match(path, lines[n - 1], n, Snippet(lines[n - 1]))] else [])
  }

  /** The matches of one file, over all of its lines. */
  function FileMatches(f: File, m: Matcher): seq<Match> {
    var lines := SplitLines(f.content);
    LineMatches(f.path, lines, m, |lines|)
  }

  /** The matcher applied to whole files. */
  function FileMatcher(m: Matcher): File -> seq<Match> {
    f => FileMatches(f, m)
  }

  /** The matches of the first n files, in file order, for per-file matches fm. */
  function MatchesBefore(files: seq<File>, fm: File -> seq<Match>, n: nat): seq<Match>
    requires n <= |files|
  {
    if n == 0 then [] else MatchesBefore(files, fm, n - 1) + fm(files[n - 1])
  }

  /** The UTF-8 size of the first n files, as Buffer.byteLength counts it. */
  function BytesBefore(files: seq<File>, n: nat): nat
    requires n <= |files|
  {
    if n == 0 then 0 else BytesBefore(files, n - 1) + ByteLength(files[n - 1].content)
  }

  /** The scan's stopping point under the file and byte budgets alone, from file k on. */
  function AdmittedFrom(files: seq<File>, maxFiles: int, maxBytes: int, k: nat): (n: nat)
    requires k <= |files|
    ensures k <= n <= |files|
    decreases |files| - k
  {
    if k == |files| || k >= maxFiles || BytesBefore(files, k) + ByteLength(files[k].content) > maxBytes then k
    else AdmittedFrom(files, maxFiles, maxBytes, k + 1)
  }

  /** How many leading files the file and byte budgets let through. */
  function Admitted(files: seq<File>, maxFiles: int, maxBytes: int): (k: nat)
    ensures k <= |files|
  {
    AdmittedFrom(files, maxFiles, maxBytes, 0)
  }

  /** The first prefix, counted from j on, whose matches reach the cap. */
  function FirstFullFrom(files: seq<File>, fm: File -> seq<Match>, cap: nat, j: nat): (n: nat)
    requires j <= |files|
    ensures j <= n <= |files|
    ensures n == |files| || |MatchesBefore(files, fm, n)| >= cap
    decreases |files| - j
  {
    if j == |files| || |MatchesBefore(files, fm, j)| >= cap then j else FirstFullFrom(files, fm, cap, j + 1)
  }

  function FirstFull(files: seq<File>, fm: File -> seq<Match>, cap: nat): (j: nat)
    ensures j <= |files|
  {
    FirstFullFrom(files, fm, cap, 0)
  }

  ghost predicate IsPrefix<T>(x: seq<T>, y: seq<T>) {
    |x| <= |y| && y[..|x|] == x
  }

  lemma PrefixExtend<T>(x: seq<T>, y: seq<T>, z: seq<T>)
    requires IsPrefix(x, y)
    ensures IsPrefix(x, y + z)
  {
    assert (y + z)[..|x|] == y[..|x|];
  }

  lemma PrefixAppend<T>(x: seq<T>, y: seq<T>, z: seq<T>)
    requires IsPrefix(y, z)
    ensures IsPrefix(x + y, x + z) && (x + z)[..|x + y|] == x + y
  {
    assert (x + z)[..|x + y|] == x + z[..|y|];
  }

  /** The matches of fewer lines are a prefix of the matches of more. */
  lemma {:induction false} LineMatchesGrow(path: string, lines: seq<Text>, m: Matcher, a: nat, b: nat)
    requires a <= b <= |lines|
    ensures IsPrefix(LineMatches(path, lines, m, a), LineMatches(path, lines, m, b))
    decreases b
  {
    if a < b {
      LineMatchesGrow(path, lines, m, a, b - 1);
      PrefixExtend(LineMatches(path, lines, m, a), LineMatches(path, lines, m, b - 1),
        if m(lines[b - 1]) then [Match(path, lines[b - 1], b, Snippet(lines[b - 1]))] else []);
    }
  }

  /** The matches of fewer files are a prefix of the matches of more. */
  lemma {:induction false} MatchesGrow(files: seq<File>, fm: File -> seq<Match>, a: nat, b: nat)
    requires a <= b <= |files|
    ensures IsPrefix(MatchesBefore(files, fm, a), MatchesBefore(files, fm, b))
    decreases b
  {
    if a < b {
      MatchesGrow(files, fm, a, b - 1);
      var tail := fm(files[b - 1]);
      assert MatchesBefore(files, fm, b) == MatchesBefore(files, fm, b - 1) + tail;
      PrefixExtend(MatchesBefore(files, fm, a), MatchesBefore(files, fm, b - 1), tail);
    }
  }

  /** No prefix shorter than FirstFullFrom(j), and at least j long, reaches the cap. */
  lemma {:induction false} FirstFullFromMinimal(files: seq<File>, fm: File -> seq<Match>, cap: nat, j: nat, k: nat)
    requires j <= k <= |files| && |MatchesBefore(files, fm, k)| >= cap
    ensures FirstFullFrom(files, fm, cap, j) <= k
    decreases k - j
  {
    if |MatchesBefore(files, fm, j)| < cap {
      FirstFullFromMinimal(files, fm, cap, j + 1, k);
    }
  }

  /** If the first k files reach the cap, the first prefix to reach it is at most k long. */
  lemma FirstFullWithin(files: seq<File>, fm: File -> seq<Match>, cap: nat, k: nat)
    requires k <= |files| && |MatchesBefore(files, fm, k)| >= cap
    ensures FirstFull(files, fm, cap) <= k
    ensures |MatchesBefore(files, fm, FirstFull(files, fm, cap))| >= cap
  {
    FirstFullFromMinimal(files, fm, cap, 0, k);
  }

  /** What the scan of the search_shelf handler reports. The files the budgets admit
      are scanned in order; if their matches reach the cap, the scan stops in the
      file that reached it, keeps the first `cap` matches and is truncated. */
  function SearchScan(files: seq<File>, fm: File -> seq<Match>, cap: nat, maxFiles: int, maxBytes: int): Scan
  {
    var k := Admitted(files, maxFiles, maxBytes);
    var all := MatchesBefore(files, fm, k);
    if |all| < cap then Scan(all, k, BytesBefore(files, k), k < |files|)
    else
      var j := FirstFull(files, fm, cap);
      FirstFullWithin(files, fm, cap, k);
      Scan(MatchesBefore(files, fm, j)[..cap], j, BytesBefore(files, j), true)
  }

  // ---------------------------------------------------------------------------
  // The scan loop of the handler, proved against SearchScan

  /** The state of the scan before file i: every earlier file was admitted and
      fully matched, and the cap has not been reached. */
  ghost predicate Scanning(files: seq<File>, fm: File -> seq<Match>, cap: nat, maxFiles: int, maxBytes: int,
                           i: nat, matches: seq<Match>)
  {
    i <= |files|
    && Admitted(files, maxFiles, maxBytes) == AdmittedFrom(files, maxFiles, maxBytes, i)
    && FirstFull(files, fm, cap) == FirstFullFrom(files, fm, cap, i)
    && matches == MatchesBefore(files, fm, i) && |matches| < cap
  }

  lemma ScanStart(files: seq<File>, fm: File -> seq<Match>, cap: nat, maxFiles: int, maxBytes: int)
    requires cap >= 1
    ensures Scanning(files, fm, cap, maxFiles, maxBytes, 0, [])
  {
  }

  /** The scan ran through every file. */
  lemma ScanFinished(files: seq<File>, fm: File -> seq<Match>, cap: nat, maxFiles: int, maxBytes: int, matches: seq<Match>)
    requires Scanning(files, fm, cap, maxFiles, maxBytes, |files|, matches)
    ensures SearchScan(files, fm, cap, maxFiles, maxBytes) == Scan(matches, |files|, BytesBefore(files, |files|), false)
  {
  }

  /** The scan stopped before file i on the file or the byte budget. */
  lemma ScanStopped(files: seq<File>, fm: File -> seq<Match>, cap: nat, maxFiles: int, maxBytes: int, i: nat, matches: seq<Match>)
    requires Scanning(files, fm, cap, maxFiles, maxBytes, i, matches) && i < |files|
    requires i >= maxFiles || BytesBefore(files, i) + ByteLength(files[i].content) > maxBytes
    ensures SearchScan(files, fm, cap, maxFiles, maxBytes) == Scan(matches, i, BytesBefore(files, i), true)
  {
  }

  /** File i passed both budgets and its matches leave the scan under the cap. */
  lemma ScanAdvance(files: seq<File>, fm: File -> seq<Match>, cap: nat, maxFiles: int, maxBytes: int, i: nat, matches: seq<Match>)
    requires Scanning(files, fm, cap, maxFiles, maxBytes, i, matches) && i < |files|
    requires i < maxFiles && BytesBefore(files, i) + ByteLength(files[i].content) <= maxBytes
    requires |matches + fm(files[i])| < cap
    ensures Scanning(files, fm, cap, maxFiles, maxBytes, i + 1, matches + fm(files[i]))
  {
  }

  lemma CappedFile(files: seq<File>, fm: File -> seq<Match>, cap: nat, i: nat)
    requires i < |files| && FirstFull(files, fm, cap) == FirstFullFrom(files, fm, cap, i)
    requires |MatchesBefore(files, fm, i)| < cap <= |MatchesBefore(files, fm, i + 1)|
    ensures FirstFull(files, fm, cap) == i + 1
  {
  }

  lemma CappedAdmitted(files: seq<File>, fm: File -> seq<Match>, cap: nat, maxFiles: int, maxBytes: int, i: nat)
    requires i < |files| && Admitted(files, maxFiles, maxBytes) == AdmittedFrom(files, maxFiles, maxBytes, i + 1)
    requires cap <= |MatchesBefore(files, fm, i + 1)|
    ensures cap <= |MatchesBefore(files, fm, Admitted(files, maxFiles, maxBytes))|
  {
    MatchesGrow(files, fm, i + 1, Admitted(files, maxFiles, maxBytes));
  }

  /** The scan reached the cap in file i, after the matches `part` of that file. */
  lemma ScanCapped(files: seq<File>, fm: File -> seq<Match>, cap: nat, maxFiles: int, maxBytes: int, i: nat,
                   before: seq<Match>, part: seq<Match>)
    requires Scanning(files, fm, cap, maxFiles, maxBytes, i, before) && i < |files|
    requires i < maxFiles && BytesBefore(files, i) + ByteLength(files[i].content) <= maxBytes
    requires IsPrefix(part, fm(files[i])) && |before + part| == cap
    ensures SearchScan(files, fm, cap, maxFiles, maxBytes) ==
      Scan(before + part, i + 1, BytesBefore(files, i + 1), true)
  {
    PrefixAppend(before, part, fm(files[i]));
    CappedFile(files, fm, cap, i);
    CappedAdmitted(files, fm, cap, maxFiles, maxBytes, i);
  }

  /** The scan reached the cap at line `index` of file i. */
  lemma ScanCappedAt(files: seq<File>, m: Matcher, cap: nat, maxFiles: int, maxBytes: int, i: nat,
                     before: seq<Match>, lines: seq<Text>, index: nat, next: seq<Match>)
    requires Scanning(files, FileMatcher(m), cap, maxFiles, maxBytes, i, before) && i < |files|
    requires i < maxFiles && BytesBefore(files, i) + ByteLength(files[i].content) <= maxBytes
    requires lines == SplitLines(files[i].content) && index < |lines|
    requires next == before + LineMatches(files[i].path, lines, m, index + 1) && |next| == cap
    ensures SearchScan(files, FileMatcher(m), cap, maxFiles, maxBytes) == Scan(next, i + 1, BytesBefore(files, i + 1), true)
  {
    LineMatchesGrow(files[i].path, lines, m, index + 1, |lines|);
    ScanCapped(files, FileMatcher(m), cap, maxFiles, maxBytes, i, before, LineMatches(files[i].path, lines, m, index + 1));
  }

  /** The inner loop of the scan: the lines of one file, in order, each matching
      line appended to `matches`, until the matches reach the cap. */
  method MatchLines(path: string, lines: seq<Text>, m: Matcher, cap: nat, before: seq<Match>)
    returns (matches: seq<Match>, capped: bool, index: nat)
    requires |before| < cap
    ensures !capped ==> matches == before + LineMatches(path, lines, m, |lines|) && |matches| < cap
    ensures capped ==> index < |lines| && matches == before + LineMatches(path, lines, m, index + 1)
    ensures capped ==> |matches| == cap
  {
    matches := before;
    capped := false;
    index := 0;
    while index < |lines|
      invariant 0 <= index <= |lines|
      invariant matches == before + LineMatches(path, lines, m, index)
      invariant |matches| < cap
    {
      var line := lines[index];
      if m(line) {
        matches := matches + [Match(path, line, index + 1, Snippet(line))];
        if |matches| >= cap {
          capped := true;
          return;
        }
      }
      index := index + 1;
    }
  }

  /** The scan loop of the search_shelf handler: files in order, each counted
      against the file and byte budgets before its lines are matched, stopping as
      soon as the matches reach the cap. */
  method ScanFiles(files: seq<File>, m: Matcher, cap: nat, maxFiles: int, maxBytes: int) returns (r: Scan)
    requires cap >= 1
    ensures r == SearchScan(files, FileMatcher(m), cap, maxFiles, maxBytes)
  {
    var matches: seq<Match> := [];
    var scannedFiles: nat := 0;
    var scannedBytes: nat := 0;
    var truncated := false;
    var i := 0;
    ghost var fm := FileMatcher(m);
    ScanStart(files, fm, cap, maxFiles, maxBytes);
    while i < |files|
      invariant Scanning(files, fm, cap, maxFiles, maxBytes, i, matches)
      invariant scannedFiles == i && scannedBytes == BytesBefore(files, i)
    {
      if scannedFiles >= maxFiles {
        ScanStopped(files, fm, cap, maxFiles, maxBytes, i, matches);
        truncated := true;
        break;
      }
      var bytes := ByteLength(files[i].content);
      if scannedBytes + bytes > maxBytes {
        ScanStopped(files, fm, cap, maxFiles, maxBytes, i, matches);
        truncated := true;
        break;
      }
      scannedFiles := scannedFiles + 1;
      scannedBytes := scannedBytes + bytes;
      var lines := SplitLines(files[i].content);
      var next, index;
      next, truncated, index := MatchLines(files[i].path, lines, m, cap, matches);
      if truncated {
        ScanCappedAt(files, m, cap, maxFiles, maxBytes, i, matches, lines, index, next);
        matches := next;
        break;
      }
      ScanAdvance(files, fm, cap, maxFiles, maxBytes, i, matches);
      matches := next;
      i := i + 1;
    }
    if !truncated {
      ScanFinished(files, fm, cap, maxFiles, maxBytes, matches);
    }
    r := Scan(matches, scannedFiles, scannedBytes, truncated);
  }

  // ---------------------------------------------------------------------------
  // What the scan promises

  /** Under the budgets alone the scan stops at file 0, or within both budgets. */
  lemma {:induction false} AdmittedWithinBudgets(files: seq<File>, maxFiles: int, maxBytes: int, k: nat)
    requires k <= |files| && (k == 0 || (k <= maxFiles && BytesBefore(files, k) <= maxBytes))
    ensures var n := AdmittedFrom(files, maxFiles, maxBytes, k);
      n == 0 || (n <= maxFiles && BytesBefore(files, n) <= maxBytes)
    decreases |files| - k
  {
    if !(k == |files| || k >= maxFiles || BytesBefore(files, k) + ByteLength(files[k].content) > maxBytes) {
      AdmittedWithinBudgets(files, maxFiles, maxBytes, k + 1);
    }
  }

  /** Under the budgets alone the scan stops only at the end or at a file that
      would break a budget. */
  lemma {:induction false} AdmittedStops(files: seq<File>, maxFiles: int, maxBytes: int, k: nat)
    requires k <= |files|
    ensures var n := AdmittedFrom(files, maxFiles, maxBytes, k);
      n == |files| || n >= maxFiles || BytesBefore(files, n) + ByteLength(files[n].content) > maxBytes
    decreases |files| - k
  {
    if !(k == |files| || k >= maxFiles || BytesBefore(files, k) + ByteLength(files[k].content) > maxBytes) {
      AdmittedStops(files, maxFiles, maxBytes, k + 1);
    }
  }

  lemma {:induction false} BytesGrow(files: seq<File>, a: nat, b: nat)
    requires a <= b <= |files|
    ensures BytesBefore(files, a) <= BytesBefore(files, b)
    decreases b
  {
    if a < b {
      BytesGrow(files, a, b - 1);
    }
  }

  /** The counters: the scanned files are a prefix of the entries, their byte count
      is the sum of their UTF-8 sizes, both stay within their budgets, the matches
      within the cap, and reaching the cap truncates. */
  lemma ScanBounds(files: seq<File>, fm: File -> seq<Match>, cap: nat, maxFiles: int, maxBytes: int)
    ensures var r := SearchScan(files, fm, cap, maxFiles, maxBytes);
      && r.scannedFiles <= |files| && r.scannedBytes == BytesBefore(files, r.scannedFiles)
      && (maxFiles >= 0 ==> r.scannedFiles <= maxFiles)
      && (maxBytes >= 0 ==> r.scannedBytes <= maxBytes)
      && |r.matches| <= cap
      && (|r.matches| == cap ==> r.truncated)
  {
    var k := Admitted(files, maxFiles, maxBytes);
    AdmittedWithinBudgets(files, maxFiles, maxBytes, 0);
    if cap <= |MatchesBefore(files, fm, k)| {
      FirstFullWithin(files, fm, cap, k);
      BytesGrow(files, FirstFull(files, fm, cap), k);
    }
  }

  /** The reported matches are the first matches of the scanned files, in scan order,
      and those are the first matches of all the files. */
  lemma ScanPrefix(files: seq<File>, fm: File -> seq<Match>, cap: nat, maxFiles: int, maxBytes: int)
    ensures var r := SearchScan(files, fm, cap, maxFiles, maxBytes);
      r.scannedFiles <= |files|
      && IsPrefix(r.matches, MatchesBefore(files, fm, r.scannedFiles))
      && IsPrefix(MatchesBefore(files, fm, r.scannedFiles), MatchesBefore(files, fm, |files|))
  {
    var r := SearchScan(files, fm, cap, maxFiles, maxBytes);
    var k := Admitted(files, maxFiles, maxBytes);
    if cap <= |MatchesBefore(files, fm, k)| {
      FirstFullWithin(files, fm, cap, k);
    }
    MatchesGrow(files, fm, r.scannedFiles, |files|);
  }

  /** Why a scan is truncated: a file that would break a budget ends it (it is not
      skipped, and nothing after it is scanned), or the cap was reached, in the last
      file scanned. An untruncated scan saw every file and reports every match. */
  lemma ScanOutcome(files: seq<File>, fm: File -> seq<Match>, cap: nat, maxFiles: int, maxBytes: int)
    ensures var r := SearchScan(files, fm, cap, maxFiles, maxBytes);
      && (!r.truncated ==>
            (r.scannedFiles == |files| && r.matches == MatchesBefore(files, fm, |files|) && |r.matches| < cap))
      && (r.truncated && |r.matches| < cap ==>
            (r.scannedFiles < |files|
             && (r.scannedFiles >= maxFiles
                 || r.scannedBytes + ByteLength(files[r.scannedFiles].content) > maxBytes)))
      && (|r.matches| == cap >= 1 ==>
            (r.scannedFiles >= 1 && |MatchesBefore(files, fm, r.scannedFiles - 1)| < cap
             && cap <= |MatchesBefore(files, fm, r.scannedFiles)|))
  {
    var k := Admitted(files, maxFiles, maxBytes);
    AdmittedStops(files, maxFiles, maxBytes, 0);
    if cap <= |MatchesBefore(files, fm, k)| {
      FirstFullWithin(files, fm, cap, k);
      var j := FirstFull(files, fm, cap);
      FirstFullMinimal(files, fm, cap, j);
    }
  }

  /** The first prefix to reach the cap is not empty, and the one before it is under the cap. */
  lemma FirstFullMinimal(files: seq<File>, fm: File -> seq<Match>, cap: nat, j: nat)
    requires j == FirstFull(files, fm, cap) && cap <= |MatchesBefore(files, fm, j)|
    ensures cap >= 1 ==> j >= 1 && |MatchesBefore(files, fm, j - 1)| < cap
  {
    if cap >= 1 && j >= 1 && |MatchesBefore(files, fm, j - 1)| >= cap {
      FirstFullFromMinimal(files, fm, cap, 0, j - 1);
    }
  }

  // ---------------------------------------------------------------------------
  // What each match is

  /** x is the match the loop pushes for its line of `lines` in the file at `path`. */
  ghost predicate MatchOfLine(x: Match, path: string, lines: seq<Text>, m: Matcher) {
    1 <= x.lineNumber <= |lines| && x.path == path && x.line == lines[x.lineNumber - 1]
    && m(x.line) && x.snippet == Snippet(x.line)
  }

  /** The matches among the first n lines are exactly the matches of the lines the
      matcher accepts, each with its path, its 1-based line number and its snippet. */
  lemma {:induction false} LineMatchesMember(path: string, lines: seq<Text>, m: Matcher, n: nat, x: Match)
    requires n <= |lines|
    ensures x in LineMatches(path, lines, m, n) <==> MatchOfLine(x, path, lines, m) && x.lineNumber <= n
  {
    if n > 0 {
      LineMatchesMember(path, lines, m, n - 1, x);
    }
  }

  /** Line numbers ascend along the matches of one file. */
  lemma {:induction false} LineMatchesOrdered(path: string, lines: seq<Text>, m: Matcher, n: nat, a: nat, b: nat)
    requires n <= |lines| && a < b < |LineMatches(path, lines, m, n)|
    ensures LineMatches(path, lines, m, n)[a].lineNumber < LineMatches(path, lines, m, n)[b].lineNumber
  {
    var prev := LineMatches(path, lines, m, n - 1);
    var ms := LineMatches(path, lines, m, n);
    assert ms[a] == prev[a];
    if b < |prev| {
      assert ms[b] == prev[b];
      LineMatchesOrdered(path, lines, m, n - 1, a, b);
    } else {
      assert ms[b] == Match(path, lines[n - 1], n, Snippet(lines[n - 1]));
      assert prev[a] in prev;
      LineMatchesMember(path, lines, m, n - 1, prev[a]);
    }
  }

  /** Object.entries has one entry per key: no two files share a path. */
  ghost predicate DistinctPaths(files: seq<File>) {
    forall i, j :: 0 <= i < j < |files| ==> files[i].path != files[j].path
  }

  /** x is the match of one of the lines of file f. */
  ghost predicate FileMatch(x: Match, f: File, m: Matcher) {
    MatchOfLine(x, f.path, SplitLines(f.content), m)
  }

  lemma FileMatchesMember(f: File, m: Matcher, x: Match)
    ensures x in FileMatches(f, m) <==> FileMatch(x, f, m)
  {
    var lines := SplitLines(f.content);
    LineMatchesMember(f.path, lines, m, |lines|, x);
  }

  /** Per-file matches that carry their file's path. */
  ghost predicate KeepsPaths(fm: File -> seq<Match>) {
    forall f, x :: x in fm(f) ==> x.path == f.path
  }

  /** Per-file matches whose line numbers ascend. */
  ghost predicate LinesAscend(fm: File -> seq<Match>) {
    forall f, a, b :: 0 <= a < b < |fm(f)| ==> fm(f)[a].lineNumber < fm(f)[b].lineNumber
  }

  /** The matches of a file carry its path, in ascending line order. */
  lemma FileMatcherWellFormed(m: Matcher)
    ensures KeepsPaths(FileMatcher(m)) && LinesAscend(FileMatcher(m))
  {
    forall f, x | x in FileMatcher(m)(f) ensures x.path == f.path {
      FileMatchesMember(f, m, x);
    }
    forall f, a, b | 0 <= a < b < |FileMatcher(m)(f)|
      ensures FileMatcher(m)(f)[a].lineNumber < FileMatcher(m)(f)[b].lineNumber
    {
      var lines := SplitLines(f.content);
      LineMatchesOrdered(f.path, lines, m, |lines|, a, b);
    }
  }

  /** Every match of the first n files is a match of one of them. */
  lemma {:induction false} MatchSource(files: seq<File>, fm: File -> seq<Match>, n: nat, x: Match)
    requires n <= |files| && x in MatchesBefore(files, fm, n)
    ensures exists i :: 0 <= i < n && x in fm(files[i])
  {
    if x in MatchesBefore(files, fm, n - 1) {
      MatchSource(files, fm, n - 1, x);
    }
  }

  /** With distinct paths, the file a match of the first n files names is one of them. */
  lemma SourceIndex(files: seq<File>, fm: File -> seq<Match>, n: nat, x: Match, i: nat)
    requires DistinctPaths(files) && KeepsPaths(fm) && n <= |files| && i < |files|
    requires x in MatchesBefore(files, fm, n) && x.path == files[i].path
    ensures i < n
  {
    MatchSource(files, fm, n, x);
    var k :| 0 <= k < n && x in fm(files[k]);
    assert files[k].path == files[i].path;
  }

  lemma OrderAcross(files: seq<File>, fm: File -> seq<Match>, n: nat, x: Match, y: Match, i: nat, j: nat)
    requires DistinctPaths(files) && KeepsPaths(fm) && 1 <= n <= |files| && i < |files| && j < n
    requires x in MatchesBefore(files, fm, n - 1) && y in fm(files[n - 1])
    requires x.path == files[i].path && y.path == files[j].path
    ensures i < j
  {
    SourceIndex(files, fm, n - 1, x, i);
    assert files[j].path == files[n - 1].path;
  }

  lemma OrderWithin(files: seq<File>, fm: File -> seq<Match>, n: nat, a: nat, b: nat, i: nat, j: nat)
    requires DistinctPaths(files) && KeepsPaths(fm) && LinesAscend(fm) && 1 <= n <= |files| && i < n && j < n
    requires a < b < |fm(files[n - 1])|
    requires fm(files[n - 1])[a].path == files[i].path && fm(files[n - 1])[b].path == files[j].path
    ensures i == j && fm(files[n - 1])[a].lineNumber < fm(files[n - 1])[b].lineNumber
  {
    var here := fm(files[n - 1]);
    assert here[a] in here && here[b] in here;
    assert files[i].path == files[n - 1].path && files[j].path == files[n - 1].path;
  }

  /** The matches come in file order, and by ascending line number within a file. */
  lemma {:induction false} MatchOrder(files: seq<File>, fm: File -> seq<Match>, n: nat, a: nat, b: nat, i: nat, j: nat)
    requires DistinctPaths(files) && KeepsPaths(fm) && LinesAscend(fm) && n <= |files|
    requires a < b < |MatchesBefore(files, fm, n)| && i < n && j < n
    requires MatchesBefore(files, fm, n)[a].path == files[i].path
    requires MatchesBefore(files, fm, n)[b].path == files[j].path
    ensures i < j || (i == j && MatchesBefore(files, fm, n)[a].lineNumber < MatchesBefore(files, fm, n)[b].lineNumber)
    decreases n, 1
  {
    var prev := MatchesBefore(files, fm, n - 1);
    var here := fm(files[n - 1]);
    if b < |prev| {
      OrderEarlier(files, fm, n, a, b, i, j);
    } else if a < |prev| {
      OrderAcross(files, fm, n, prev[a], here[b - |prev|], i, j);
    } else {
      OrderWithin(files, fm, n, a - |prev|, b - |prev|, i, j);
    }
  }

  /** Two matches of the first n - 1 files keep their order among the first n. */
  lemma {:induction false} OrderEarlier(files: seq<File>, fm: File -> seq<Match>, n: nat, a: nat, b: nat, i: nat, j: nat)
    requires DistinctPaths(files) && KeepsPaths(fm) && LinesAscend(fm) && 1 <= n <= |files| && i < n && j < n
    requires a < b < |MatchesBefore(files, fm, n - 1)|
    requires MatchesBefore(files, fm, n)[a].path == files[i].path
    requires MatchesBefore(files, fm, n)[b].path == files[j].path
    ensures i < j || (i == j && MatchesBefore(files, fm, n)[a].lineNumber < MatchesBefore(files, fm, n)[b].lineNumber)
    decreases n, 0
  {
    var all := MatchesBefore(files, fm, n);
    var prev := MatchesBefore(files, fm, n - 1);
    assert all[a] == prev[a] && all[b] == prev[b];
    SourceIndex(files, fm, n - 1, prev[a], i);
    SourceIndex(files, fm, n - 1, prev[b], j);
    MatchOrder(files, fm, n - 1, a, b, i, j);
  }

  /** Every reported match is the match of a line of a scanned file: its path, its
      1-based line number, the line as split, the snippet, and the matcher accepts it. */
  lemma ScanMatchSource(files: seq<File>, m: Matcher, cap: nat, maxFiles: int, maxBytes: int, x: Match)
    requires x in SearchScan(files, FileMatcher(m), cap, maxFiles, maxBytes).matches
    ensures exists i :: 0 <= i < SearchScan(files, FileMatcher(m), cap, maxFiles, maxBytes).scannedFiles
                        && FileMatch(x, files[i], m)
  {
    var r := SearchScan(files, FileMatcher(m), cap, maxFiles, maxBytes);
    ScanPrefix(files, FileMatcher(m), cap, maxFiles, maxBytes);
    var all := MatchesBefore(files, FileMatcher(m), r.scannedFiles);
    assert x in all by {
      var a :| 0 <= a < |r.matches| && r.matches[a] == x;
      assert all[a] == x;
    }
    MatchSource(files, FileMatcher(m), r.scannedFiles, x);
    var i :| 0 <= i < r.scannedFiles && x in FileMatcher(m)(files[i]);
    FileMatchesMember(files[i], m, x);
  }

  /** The reported matches come in file order, then by ascending line number. */
  lemma ScanOrder(files: seq<File>, m: Matcher, cap: nat, maxFiles: int, maxBytes: int, a: nat, b: nat, i: nat, j: nat)
    requires DistinctPaths(files)
    requires a < b < |SearchScan(files, FileMatcher(m), cap, maxFiles, maxBytes).matches|
    requires i < |files| && j < |files|
    requires SearchScan(files, FileMatcher(m), cap, maxFiles, maxBytes).matches[a].path == files[i].path
    requires SearchScan(files, FileMatcher(m), cap, maxFiles, maxBytes).matches[b].path == files[j].path
    ensures i < j || (i == j && SearchScan(files, FileMatcher(m), cap, maxFiles, maxBytes).matches[a].lineNumber
                                 < SearchScan(files, FileMatcher(m), cap, maxFiles, maxBytes).matches[b].lineNumber)
  {
    var r := SearchScan(files, FileMatcher(m), cap, maxFiles, maxBytes);
    ScanPrefix(files, FileMatcher(m), cap, maxFiles, maxBytes);
    var all := MatchesBefore(files, FileMatcher(m), |files|);
    assert r.matches[a] == all[a] && r.matches[b] == all[b] by {
      var scanned := MatchesBefore(files, FileMatcher(m), r.scannedFiles);
      assert r.matches[a] == scanned[a] && r.matches[b] == scanned[b];
    }
    FileMatcherWellFormed(m);
    MatchOrder(files, FileMatcher(m), |files|, a, b, i, j);
  }

  // ---------------------------------------------------------------------------
  // The search_shelf handler

  /** The tool input once the schema has accepted it (max_matches, when present, is at least 1). */
  datatype SearchInput = SearchInput(
    shelfId: string,
    query: Text,
    mode: Option<Mode>,
    caseSensitive: Option<bool>,
    maxMatches: Option<int>)

  /** The structured content of a successful search. */
  datatype SearchOutput = SearchOutput(
    shelfId: string,
    query: Text,
    mode: Mode,
    caseSensitive: bool,
    matches: seq<Match>,
    scannedFiles: nat,
    scannedBytes: nat,
    truncated: bool)

  /** Math.min(input.max_matches ?? ceiling, ceiling) */
  function EffectiveCap(hint: Option<int>, ceiling: int): (cap: int)
    ensures cap <= ceiling && (hint.Some? ==> cap <= hint.value)
    ensures cap == ceiling || (hint.Some? && cap == hint.value)
    ensures ceiling >= 1 && (hint.Some? ==> hint.value >= 1) ==> cap >= 1
  {
    var wanted := hint.GetOr(ceiling);
    if wanted < ceiling then wanted else ceiling
  }

  function SearchSummary(matches: nat, files: nat): string {
    "Found " + NatToDecimal(matches) + " matches across " + NatToDecimal(files) + " files"
  }

  /** The handler's reply. `source` is the outcome of getApiKey and resolveShelfSource
      (the shelf's files in entry order, or what they threw); `ceiling`, `maxFiles`
      and `maxBytes` are the configured searchMaxMatches, searchMaxFiles and
      searchMaxBytes. The matcher is built only once the source is in hand, and
      before any file is scanned. */
  function SearchResponse(input: SearchInput, source: Result<seq<File>, Thrown>,
                          compile: (Text, bool) -> Option<Matcher>,
                          ceiling: int, maxFiles: int, maxBytes: int): ToolResult<SearchOutput>
    requires ceiling >= 1 && (input.maxMatches.Some? ==> input.maxMatches.value >= 1)
  {
    var mode := input.mode.GetOr(Substring);
    var caseSensitive := input.caseSensitive.GetOr(false);
    match source
    case Err(thrown) => ErrorResult(thrown)
    case Ok(files) =>
      match BuildMatcher(input.query, mode, caseSensitive, compile)
      case Err(e) => ErrorResult(ToolFailure(e))
      case Ok(m) =>
        var r := SearchScan(files, FileMatcher(m), EffectiveCap(input.maxMatches, ceiling), maxFiles, maxBytes);
        SuccessResult(SearchSummary(|r.matches|, r.scannedFiles),
          SearchOutput(input.shelfId, input.query, mode, caseSensitive,
                       r.matches, r.scannedFiles, r.scannedBytes, r.truncated))
  }

  /** The search_shelf handler. */
  method HandleSearch(input: SearchInput, source: Result<seq<File>, Thrown>,
                      compile: (Text, bool) -> Option<Matcher>,
                      ceiling: int, maxFiles: int, maxBytes: int) returns (result: ToolResult<SearchOutput>)
    requires ceiling >= 1 && (input.maxMatches.Some? ==> input.maxMatches.value >= 1)
    ensures result == SearchResponse(input, source, compile, ceiling, maxFiles, maxBytes)
  {
    var mode := input.mode.GetOr(Substring);
    var caseSensitive := input.caseSensitive.GetOr(false);
    if source.Err? {
      return ErrorResult(source.error);
    }
    var matcher := BuildMatcher(input.query, mode, caseSensitive, compile);
    if matcher.Err? {
      return ErrorResult(ToolFailure(matcher.error));
    }
    var cap := EffectiveCap(input.maxMatches, ceiling);
    var r := ScanFiles(source.value, matcher.value, cap, maxFiles, maxBytes);
    result := SuccessResult(SearchSummary(|r.matches|, r.scannedFiles),
      SearchOutput(input.shelfId, input.query, mode, caseSensitive,
                   r.matches, r.scannedFiles, r.scannedBytes, r.truncated));
  }

  /** A regular expression that does not compile fails the call with INPUT_ERROR
      "Invalid regular expression", status 400, and nothing is scanned. */
  lemma InvalidRegexRejected(input: SearchInput, files: seq<File>, compile: (Text, bool) -> Option<Matcher>,
                             ceiling: int, maxFiles: int, maxBytes: int)
    requires ceiling >= 1 && (input.maxMatches.Some? ==> input.maxMatches.value >= 1)
    requires input.mode == Some(Regex) && compile(input.query, input.caseSensitive.GetOr(false)).None?
    ensures var r := SearchResponse(input, Ok(files), compile, ceiling, maxFiles, maxBytes);
      r.Failure? && r.error.code == InputError && r.error.status == Some(400)
      && r.error.message == InvalidRegexMessage && r.text == InvalidRegexMessage
  {
  }

  /** A successful search stays within the effective cap, which stays within the
      configured ceiling, and within the file and byte budgets; its summary counts
      the matches and the scanned files. */
  lemma SearchWithinBudgets(input: SearchInput, source: Result<seq<File>, Thrown>,
                            compile: (Text, bool) -> Option<Matcher>, ceiling: int, maxFiles: int, maxBytes: int)
    requires ceiling >= 1 && (input.maxMatches.Some? ==> input.maxMatches.value >= 1)
    requires maxFiles >= 0 && maxBytes >= 0
    ensures var r := SearchResponse(input, source, compile, ceiling, maxFiles, maxBytes);
      r.Success? ==>
        && |r.content.matches| <= EffectiveCap(input.maxMatches, ceiling) <= ceiling
        && (input.maxMatches.Some? ==> |r.content.matches| <= input.maxMatches.value)
        && r.content.scannedFiles <= maxFiles && r.content.scannedBytes <= maxBytes
        && r.text == SearchSummary(|r.content.matches|, r.content.scannedFiles)
  {
    if source.Ok? {
      var mode := input.mode.GetOr(Substring);
      var caseSensitive := input.caseSensitive.GetOr(false);
      var built := BuildMatcher(input.query, mode, caseSensitive, compile);
      if built.Ok? {
        ScanBounds(source.value, FileMatcher(built.value), EffectiveCap(input.maxMatches, ceiling), maxFiles, maxBytes);
      }
    }
  }
}
