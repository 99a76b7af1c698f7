/** The pure part of backend/services/file_handler.py: choosing a text
    extractor by the file name's suffix, and cutting extracted text down to
    a character budget. The extractors themselves (PDF, DOCX and plain-text
    reads) are I/O and come in as a parameter. */
module FileHandler {
  import opened Wrappers
  import Text

  /** The budget `truncate_text` uses when the caller gives none. */
  const DefaultMaxChars: int := 15000

  /** The three readers `extract_text_from_file` can dispatch to. */
  datatype FileKind = Pdf | Docx | Txt

  /** The suffix test chain: `.pdf`, then `.docx`, then `.txt`. */
  function FileKindOf(filename: string): (r: Option<FileKind>)
    ensures r == Some(Pdf) ==> Text.EndsWith(filename, ".pdf")
    ensures r == Some(Docx) ==> Text.EndsWith(filename, ".docx")
    ensures r == Some(Txt) ==> Text.EndsWith(filename, ".txt")
    ensures r == None ==>
              !Text.EndsWith(filename, ".pdf") && !Text.EndsWith(filename, ".docx")
              && !Text.EndsWith(filename, ".txt")
  {
    if Text.EndsWith(filename, ".pdf") then Some(Pdf)
    else if Text.EndsWith(filename, ".docx") then Some(Docx)
    else if Text.EndsWith(filename, ".txt") then Some(Txt)
    else None
  }

  /** `extract_text_from_file(path, filename)`: `read(kind, path)` stands for
      the reader of that kind, returning the text or the message of the
      ValueError it raises. An unknown suffix raises "Unsupported file type"
      without reading anything. */
  function ExtractTextFromFile(path: string, filename: string,
                               read: (FileKind, string) -> Result<string, string>): (r: Result<string, string>)
    ensures (!Text.EndsWith(filename, ".pdf") && !Text.EndsWith(filename, ".docx")
             && !Text.EndsWith(filename, ".txt")) ==> r == Failure("Unsupported file type")
    ensures Text.EndsWith(filename, ".pdf") ==> r == read(Pdf, path)
    ensures Text.EndsWith(filename, ".docx") ==> r == read(Docx, path)
    ensures Text.EndsWith(filename, ".txt") ==> r == read(Txt, path)
  {
    SuffixDispatch(filename);
    match FileKindOf(filename)
    case None => Failure("Unsupported file type")
    case Some(kind) => read(kind, path)
  }

  /** A name ending in a suffix ends in the suffix's last character. */
  lemma EndsWithLast(filename: string, suffix: string)
    requires |suffix| > 0 && Text.EndsWith(filename, suffix)
    ensures filename[|filename| - 1] == suffix[|suffix| - 1]
  {
    assert filename[|filename| - |suffix|..][|suffix| - 1] == suffix[|suffix| - 1];
  }

  /** The three suffixes exclude each other, so the order of the tests does
      not matter: each kind is chosen exactly when its suffix is present. */
  lemma SuffixDispatch(filename: string)
    ensures FileKindOf(filename) == Some(Pdf) <==> Text.EndsWith(filename, ".pdf")
    ensures FileKindOf(filename) == Some(Docx) <==> Text.EndsWith(filename, ".docx")
    ensures FileKindOf(filename) == Some(Txt) <==> Text.EndsWith(filename, ".txt")
    ensures FileKindOf(filename) == None <==>
              !Text.EndsWith(filename, ".pdf") && !Text.EndsWith(filename, ".docx")
              && !Text.EndsWith(filename, ".txt")
  {
    if Text.EndsWith(filename, ".docx") {
      EndsWithLast(filename, ".docx");
      if Text.EndsWith(filename, ".pdf") {
        EndsWithLast(filename, ".pdf");
      }
    }
    if Text.EndsWith(filename, ".txt") {
      EndsWithLast(filename, ".txt");
      if Text.EndsWith(filename, ".pdf") {
        EndsWithLast(filename, ".pdf");
      }
      if Text.EndsWith(filename, ".docx") {
        EndsWithLast(filename, ".docx");
      }
    }
  }

  /** The end index of the Python slice `text[:stop]` on a string of length
      `n`: a negative `stop` counts from the end, and both are clamped. */
  function SliceStop(n: nat, stop: int): (e: nat)
    ensures e <= n
  {
    if stop >= 0 then (if stop < n then stop else n)
    else if n + stop > 0 then n + stop else 0
  }

  /** `truncate_text(text, max_chars)`. */
  function TruncateText(text: string, maxChars: int := DefaultMaxChars): (r: string)
    ensures r <= text
    ensures maxChars >= 0 ==> |r| <= maxChars
    ensures |text| <= maxChars ==> r == text
    ensures 0 <= maxChars < |text| ==> |r| == maxChars
    ensures maxChars < 0 ==> |r| == if |text| + maxChars > 0 then |text| + maxChars else 0
  {
    if |text| > maxChars then text[..SliceStop(|text|, maxChars)] else text
  }

  /** `truncate_text(text)` with the default budget. */
  function TruncateTextDefault(text: string): (r: string)
    ensures r <= text
    ensures |r| == if |text| <= DefaultMaxChars then |text| else DefaultMaxChars
  {
    TruncateText(text)
  }

  /** With a non-negative budget, truncating twice is truncating once. */
  lemma TruncateIdempotent(text: string, maxChars: int)
    requires maxChars >= 0
    ensures TruncateText(TruncateText(text, maxChars), maxChars) == TruncateText(text, maxChars)
  {
  }

  /** A negative budget is read as "drop that many characters from the end",
      so there a second truncation keeps cutting. */
  lemma TruncateNegativeShrinksAgain(text: string, maxChars: int)
    requires maxChars < 0 && |text| + maxChars > 0
    ensures |TruncateText(TruncateText(text, maxChars), maxChars)| < |TruncateText(text, maxChars)|
  {
  }
}
