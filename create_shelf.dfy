/** The checks create_shelf makes on a local PDF before uploading it
    (src/tools/create-shelf.ts). What the filesystem reports about the file is
    passed in: the result of stat and the first bytes of the file. */
module CreateShelf {
  import opened Wrappers
  import opened Js
  import opened Errors
  import opened PosixPath

  type Byte = x: int | 0 <= x < 256

  /** 300 MB. */
  const MaxPdfBytes := 300 * 1024 * 1024

  /** What fs.stat yields; a stat that fails is caught and reads as Missing. */
  datatype Stat = Missing | Found(isFile: bool, size: nat)

  /** `%PDF-` */
  const PdfMagic: seq<Byte> := [0x25, 0x50, 0x44, 0x46, 0x2D]

  const NotAFile := "pdf_path must point to an existing file"
  const TooLarge := "PDF exceeds 300 MB limit"
  const NotPdfExtension := "Only .pdf files are supported"
  const NotPdfContent := "File does not appear to be a valid PDF"

  /** The five-byte buffer after reading at offset 0: the file's leading bytes, and
      the zeros Buffer.alloc put there where the file is shorter. */
  function HeaderBuffer(leading: seq<Byte>): (h: seq<Byte>)
    ensures |h| == 5
    ensures forall i :: 0 <= i < 5 ==> h[i] == if i < |leading| then leading[i] else 0
  {
    if |leading| >= 5 then leading[..5] else leading + seq(5 - |leading|, _ => 0)
  }

  /** assertPdfFile: stat, size, extension and header, in that order; the first check
      that fails is the error. `leading` is the start of the file's content. */
  function AssertPdfFile(filePath: string, stat: Stat, leading: seq<Byte>): (r: Result<(), ToolError>)
    ensures r.Err? ==> r.error.code == InputError && r.error.status == Some(400) && r.error.retryable == Some(false)
  {
    if stat.Missing? || !stat.isFile then Err(InputFailure(NotAFile))
    else if stat.size > MaxPdfBytes then Err(InputFailure(TooLarge))
    else if Lower(Extname(filePath)) != ".pdf" then Err(InputFailure(NotPdfExtension))
    else if HeaderBuffer(leading) != PdfMagic then Err(InputFailure(NotPdfContent))
    else Ok(())
  }

  predicate IsRegularFile(stat: Stat) {
    stat.Found? && stat.isFile
  }

  predicate WithinLimit(stat: Stat) {
    stat.Found? && stat.size <= MaxPdfBytes
  }

  predicate HasPdfExtension(filePath: string) {
    Lower(Extname(filePath)) == ".pdf"
  }

  /** The content starts with the five bytes of `%PDF-`. */
  predicate HasPdfHeader(leading: seq<Byte>) {
    |leading| >= 5 && leading[..5] == PdfMagic
  }

  /** The header buffer matches exactly when the file starts with `%PDF-`. */
  lemma HeaderMatches(leading: seq<Byte>)
    ensures HeaderBuffer(leading) == PdfMagic <==> HasPdfHeader(leading)
  {
    if |leading| < 5 {
      assert HeaderBuffer(leading)[4] != PdfMagic[4];
    }
  }

  /** A file is accepted exactly when it passes all four checks, and a refusal names
      the first check that fails. */
  lemma {:induction false} PdfChecks(filePath: string, stat: Stat, leading: seq<Byte>)
    ensures var r := AssertPdfFile(filePath, stat, leading);
      && (r.Ok? <==> IsRegularFile(stat) && WithinLimit(stat) && HasPdfExtension(filePath) && HasPdfHeader(leading))
      && (!IsRegularFile(stat) ==> r == Err(InputFailure(NotAFile)))
      && (IsRegularFile(stat) && !WithinLimit(stat) ==> r == Err(InputFailure(TooLarge)))
      && (IsRegularFile(stat) && WithinLimit(stat) && !HasPdfExtension(filePath) ==> r == Err(InputFailure(NotPdfExtension)))
      && (IsRegularFile(stat) && WithinLimit(stat) && HasPdfExtension(filePath) && !HasPdfHeader(leading)
          ==> r == Err(InputFailure(NotPdfContent)))
  {
    HeaderMatches(leading);
  }

  /** The size limit is inclusive: a file of exactly 300 MB passes the size check and
      one byte more fails it. */
  lemma SizeBoundary(filePath: string, leading: seq<Byte>)
    requires HasPdfExtension(filePath) && HasPdfHeader(leading)
    ensures AssertPdfFile(filePath, Found(true, 314572800), leading) == Ok(())
    ensures AssertPdfFile(filePath, Found(true, 314572801), leading) == Err(InputFailure(TooLarge))
  {
    PdfChecks(filePath, Found(true, 314572800), leading);
  }

  /** A file shorter than five bytes never passes the header check: the zero
      padding cannot read as `%PDF-`. */
  lemma ShortFileRejected(filePath: string, stat: Stat, leading: seq<Byte>)
    requires |leading| < 5
    ensures AssertPdfFile(filePath, stat, leading).Err?
  {
    PdfChecks(filePath, stat, leading);
  }

  /** A directory is refused before its size or name is looked at. */
  lemma DirectoryRefused(filePath: string, size: nat, leading: seq<Byte>)
    ensures AssertPdfFile(filePath, Found(false, size), leading) == Err(InputFailure(NotAFile))
  {
  }
}
