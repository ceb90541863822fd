/**
 * The pure text processing the close handler of a scan performs on the
 * scanner's standard output: marker tests, the segment after the
 * "Saving URL list to file.." marker, the report table and the two
 * `Saved ...: <path>` captures (open-directory-downloader.js:83-113).
 */
module Extraction {
  import opened Wrappers
  import opened JsStrings

  const FINISHED_INDEXING := "Finished indexing"
  const NO_URLS_TO_SAVE := "No URLs to save"
  const SAVING_URL_LIST := "Saving URL list to file.."
  const SAVED_SESSION := "Saved session: "
  const SAVED_URL_LIST := "Saved URL list to file: "
  const REPORT_START := "|"
  /**
   * Both the end marker of the report and the `credits` field of a result,
   * written in pieces only so that the verifier can inspect it piece by piece.
   */
  const CREDITS := "^" + CREDITS_TAIL
  const CREDITS_TAIL := CREDITS_1 + CREDITS_2 + CREDITS_3 + CREDITS_4 + CREDITS_5
  const CREDITS_1 := "(Created by [KoalaBear84's "
  const CREDITS_2 := "OpenDirectory Indexer]("
  const CREDITS_3 := "https://github.com/"
  const CREDITS_4 := "KoalaBear84/"
  const CREDITS_5 := "OpenDirectoryDownloader/))"

  lemma CreditsTailHasNoCaret()
    ensures '^' !in CREDITS_TAIL
  {
    NoCaretInCreditsText();
    NoCaretInCreditsLink();
  }

  lemma NoCaretInCreditsText()
    ensures '^' !in CREDITS_1 && '^' !in CREDITS_2
  {
  }

  lemma NoCaretInCreditsLink()
    ensures '^' !in CREDITS_3 && '^' !in CREDITS_4 && '^' !in CREDITS_5
  {
  }

  /** The credits marker begins with a character it never repeats, so its occurrences never overlap. */
  lemma CreditsShape()
    ensures HeadNotRepeated(CREDITS)
  {
    CreditsTailHasNoCaret();
    assert CREDITS[1..] == CREDITS_TAIL;
  }

  /**
   * `output.split(SAVING_URL_LIST)[1]`: the text between the first and the
   * second occurrence of the marker (or the end), `None` for `undefined`.
   */
  function FinalSegment(output: string): (r: Option<string>)
    ensures r.Some? <==> Contains(output, SAVING_URL_LIST)
    ensures match FirstIndex(output, SAVING_URL_LIST)
              case None => r.None?
              case Some(i) => r.Some? && PieceAt(output, SAVING_URL_LIST, i + |SAVING_URL_LIST|, r.value)
  {
    var parts := Split(output, SAVING_URL_LIST);
    SplitLength(output, SAVING_URL_LIST);
    FirstIndexFinds(output, SAVING_URL_LIST);
    if |parts| > 1 then
      var i := FirstIndex(output, SAVING_URL_LIST).value;
      SplitFromStep(output, SAVING_URL_LIST, 0, i);
      FirstPieceFrom(output, SAVING_URL_LIST, i + |SAVING_URL_LIST|);
      Some(parts[1])
    else
      None
  }

  /**
   * `redditOutput` (line 101): the text from the first `|` of the segment up
   * to, not including, the last occurrence of the credits marker; empty when
   * either is missing or the marker comes first.
   */
  function Report(segment: string): (r: string)
    ensures match (FirstIndex(segment, REPORT_START), LastIndex(segment, CREDITS))
              case (Some(p), Some(q)) => r == if p < q then segment[p..q] else ""
              case _ => r == ""
  {
    ReportIsSlice(segment);
    DropLastPiece(FromFirst(segment, REPORT_START), CREDITS)
  }

  lemma ReportIsSlice(segment: string)
    ensures var r := DropLastPiece(FromFirst(segment, REPORT_START), CREDITS);
      match (FirstIndex(segment, REPORT_START), LastIndex(segment, CREDITS))
      case (Some(p), Some(q)) => r == if p < q then segment[p..q] else ""
      case _ => r == ""
  {
    match FirstIndex(segment, REPORT_START)
    case None => ReportWithoutPipe(segment);
    case Some(p) => ReportFromPipe(segment, p);
  }

  lemma ReportWithoutPipe(segment: string)
    requires FirstIndex(segment, REPORT_START).None?
    ensures DropLastPiece(FromFirst(segment, REPORT_START), CREDITS) == ""
  {
    var fromPipe := FromFirst(segment, REPORT_START);
    CreditsShape();
    DropLastPieceIsPrefix(fromPipe, CREDITS);
    assert fromPipe == REPORT_START;
    assert !OccursAt(fromPipe, CREDITS, 0);
    assert !OccursAt(fromPipe, CREDITS, 1);
  }

  lemma ReportFromPipe(segment: string, p: nat)
    requires FirstIndex(segment, REPORT_START) == Some(p)
    ensures var r := DropLastPiece(FromFirst(segment, REPORT_START), CREDITS);
      match LastIndex(segment, CREDITS)
      case Some(q) => r == if p < q then segment[p..q] else ""
      case None => r == ""
  {
    var fromPipe := FromFirst(segment, REPORT_START);
    assert fromPipe == segment[p..];
    CreditsShape();
    DropLastPieceOfSuffix(segment, CREDITS, p);
  }

  /** The characters a JavaScript regular expression's `.` does not match. */
  predicate IsLineTerminator(c: char)
  {
    c == '\n' || c == '\r' || c == '\U{2028}' || c == '\U{2029}'
  }

  /** What a greedy `(.*)` captures at the start of `s`: everything up to the first line terminator. */
  function RestOfLine(s: string): (r: string)
    ensures r <= s
    ensures forall k :: 0 <= k < |r| ==> !IsLineTerminator(r[k])
    ensures |r| == |s| || IsLineTerminator(s[|r|])
  {
    if |s| == 0 || IsLineTerminator(s[0]) then "" else [s[0]] + RestOfLine(s[1..])
  }

  /**
   * `line` starts at `from` in `s`, holds no line terminator and is followed
   * by the end of `s` or by a line terminator.
   */
  predicate LineAt(s: string, from: nat, line: string)
  {
    && from + |line| <= |s|
    && s[from..from + |line|] == line
    && (forall k :: 0 <= k < |line| ==> !IsLineTerminator(line[k]))
    && (from + |line| == |s| || IsLineTerminator(s[from + |line|]))
  }

  /**
   * `segment.match(/<marker>(.*)/)[1]`: the rest of the line after the first
   * occurrence of `marker`, or `None` when the regular expression does not
   * match (lines 103-113).
   */
  function Capture(segment: string, marker: string): (r: Option<string>)
    requires |marker| > 0
    ensures r.Some? <==> Contains(segment, marker)
    ensures match FirstIndex(segment, marker)
              case None => r.None?
              case Some(i) => r.Some? && LineAt(segment, i + |marker|, r.value)
  {
    FirstIndexFinds(segment, marker);
    match FirstIndex(segment, marker)
    case None => None
    case Some(i) =>
      var line := RestOfLine(segment[i + |marker|..]);
      assert segment[i + |marker|..][..|line|] == line;
      Some(line)
  }
}
