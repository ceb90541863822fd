/**
 * What the `close` handler of a scan decides (open-directory-downloader.js:75-161):
 * the failures and the result record, the settle-once promise cell, and the
 * ordered list of settle attempts and file deletions the handler makes.
 */
module ScanOutcome {
  import opened Wrappers
  import opened JsStrings
  import opened Extraction
  import opened ScanArguments

  /** The parsed JSON session file; its contents are not modelled. */
  datatype Session = Session(json: string)

  /** The record a scan resolves with (lines 154-161) or attaches to a late failure (lines 141-150). */
  datatype ScanResult = ScanResult(
    scannedUrl: string,
    scan: Option<Session>,
    jsonFile: Option<string>,
    urlFile: Option<string>,
    reddit: string,
    credits: string)

  /** Every way a scan is rejected. */
  datatype Failure =
    | ProcessError(message: string)                     // line 72
    | ExitFailure(code: Option<int>, stderr: string)    // line 78
    | NeverFinishedIndexing                             // line 84
    | NothingFound                                      // line 89
    | SessionFileNotFound                               // line 105
    | UrlListFileNotFound                               // line 111
    | ResultsUnreadable(partial: ScanResult)            // lines 141-150

  /** One call of `reject` or `resolve`. */
  datatype Settlement = Reject(failure: Failure) | Resolve(result: ScanResult)

  /** The state of the promise. */
  datatype Outcome = Pending | Rejected(failure: Failure) | Resolved(result: ScanResult)

  /** The state a pending promise enters on a settle attempt. */
  function Entered(s: Settlement): (o: Outcome)
    ensures o != Pending
  {
    match s
    case Reject(f) => Rejected(f)
    case Resolve(v) => Resolved(v)
  }

  /** One settle attempt: only a pending promise changes. */
  function Settle(o: Outcome, s: Settlement): (r: Outcome)
    ensures o.Pending? ==> r == Entered(s)
    ensures !o.Pending? ==> r == o
  {
    if o.Pending? then Entered(s) else o
  }

  /** A sequence of settle attempts: the first one made on a pending promise wins. */
  function SettleAll(o: Outcome, attempts: seq<Settlement>): (r: Outcome)
    ensures !o.Pending? ==> r == o
    ensures o.Pending? && attempts == [] ==> r == Pending
    ensures o.Pending? && attempts != [] ==> r == Entered(attempts[0])
    decreases |attempts|
  {
    if attempts == [] then o else SettleAll(Settle(o, attempts[0]), attempts[1..])
  }

  /** Settling in two batches is settling with both in order. */
  lemma {:induction false} SettleAllAppend(o: Outcome, first: seq<Settlement>, second: seq<Settlement>)
    ensures SettleAll(o, first + second) == SettleAll(SettleAll(o, first), second)
    decreases |first|
  {
    if first != [] {
      assert (first + second)[1..] == first[1..] + second;
      SettleAllAppend(Settle(o, first[0]), first[1..], second);
    }
  }

  /** One more attempt after a batch. */
  lemma SettleAllSnoc(o: Outcome, attempts: seq<Settlement>, s: Settlement)
    ensures SettleAll(o, attempts + [s]) == Settle(SettleAll(o, attempts), s)
  {
    SettleAllAppend(o, attempts, [s]);
  }

  /**
   * What one run of the handler does: its settle attempts in order, the
   * files it tries to delete in order, and whether it stopped with an
   * uncaught `TypeError` (line 101 reading `undefined.split`).
   */
  datatype CloseEffects = CloseEffects(attempts: seq<Settlement>, unlinked: seq<string>, threw: bool)

  /** `x.split(marker).length > 1`, the marker test of lines 83 and 87: it succeeds exactly when the marker occurs. */
  predicate SplitsOn(output: string, marker: string): (b: bool)
    requires |marker| > 0
    ensures b <==> Contains(output, marker)
  {
    SplitLength(output, marker);
    |Split(output, marker)| > 1
  }

  /** `options.keepX ? path : undefined`. */
  function KeptPath(keep: bool, path: string): (r: Option<string>)
    ensures r.Some? <==> keep
    ensures keep ==> r == Some(path)
  {
    if keep then Some(path) else None
  }

  /**
   * The record of lines 143-149 and 154-160 before the session is added:
   * a path is reported only when its file is kept.
   */
  function Record(url: string, o: Options, segment: string, jsonFile: string, urlFile: string): (r: ScanResult)
    ensures r.scannedUrl == url && r.scan.None?
    ensures r.jsonFile.Some? <==> o.keepJsonFile
    ensures r.urlFile.Some? <==> o.keepUrlFile
    ensures o.keepJsonFile ==> r.jsonFile == Some(jsonFile)
    ensures o.keepUrlFile ==> r.urlFile == Some(urlFile)
    ensures r.reddit == Report(segment) && r.credits == CREDITS
  {
    ScanResult(url, None, KeptPath(o.keepJsonFile, jsonFile), KeptPath(o.keepUrlFile, urlFile),
               Report(segment), CREDITS)
  }

  /** Lines 123-161, once both file paths are known. */
  function LoadEffects(url: string, o: Options, segment: string, jsonFile: string, urlFile: string,
                       load: string -> Option<Session>): (e: CloseEffects)
    ensures !e.threw
  {
    var urlUnlink := if o.keepUrlFile then [] else [urlFile];
    var record := Record(url, o, segment, jsonFile, urlFile);
    match load(jsonFile)
    case Some(session) =>
      CloseEffects([Resolve(record.(scan := Some(session)))],
                   urlUnlink + (if o.keepJsonFile then [] else [jsonFile]), false)
    case None =>
      CloseEffects([Reject(ResultsUnreadable(record)), Resolve(record)], urlUnlink, false)
  }

  /** Lines 103-161, given the segment after the `Saving URL list to file..` marker. */
  function SegmentEffects(url: string, o: Options, segment: string, load: string -> Option<Session>): (e: CloseEffects)
    ensures !e.threw
  {
    match Capture(segment, SAVED_SESSION)
    case None => CloseEffects([Reject(SessionFileNotFound)], [], false)
    case Some(jsonFile) =>
      match Capture(segment, SAVED_URL_LIST)
      case None => CloseEffects([Reject(UrlListFileNotFound)], [], false)
      case Some(urlFile) => LoadEffects(url, o, segment, jsonFile, urlFile, load)
  }

  /**
   * Lines 83-161, after the exit-code test. The chain throws exactly when
   * indexing finished, something was found and the segment marker is
   * missing; then it neither settles nor deletes. Otherwise it settles at
   * least once, and at most twice.
   */
  function ChainEffects(url: string, o: Options, stdout: string, load: string -> Option<Session>): (e: CloseEffects)
    ensures e.threw <==> Contains(stdout, FINISHED_INDEXING) && !Contains(stdout, NO_URLS_TO_SAVE)
                         && !Contains(stdout, SAVING_URL_LIST)
    ensures e.threw ==> e.attempts == [] && e.unlinked == []
    ensures !e.threw ==> 1 <= |e.attempts| <= 2
  {
    if !SplitsOn(stdout, FINISHED_INDEXING) then CloseEffects([Reject(NeverFinishedIndexing)], [], false)
    else if SplitsOn(stdout, NO_URLS_TO_SAVE) then CloseEffects([Reject(NothingFound)], [], false)
    else match FinalSegment(stdout)
      case None => CloseEffects([], [], true)
      case Some(segment) => SegmentEffects(url, o, segment, load)
  }

  /**
   * The whole handler: an exit code other than 1 is rejected first without
   * stopping the chain (line 78 has no `return`); `load` reads and parses
   * the session file at a path, `None` when either fails.
   */
  function CloseEffectsOf(url: string, o: Options, code: Option<int>, stdout: string, stderr: string,
                          load: string -> Option<Session>): (e: CloseEffects)
    ensures code != Some(1) ==> e.attempts != [] && e.attempts[0] == Reject(ExitFailure(code, stderr))
    ensures code == Some(1) ==> e.attempts == ChainEffects(url, o, stdout, load).attempts
    ensures e.unlinked == ChainEffects(url, o, stdout, load).unlinked
    ensures e.threw == ChainEffects(url, o, stdout, load).threw
  {
    var exit := if code != Some(1) then [Reject(ExitFailure(code, stderr))] else [];
    var chain := ChainEffects(url, o, stdout, load);
    CloseEffects(exit + chain.attempts, chain.unlinked, chain.threw)
  }

  /** The promise once the handler has run on a promise in state `start`. */
  function Close(start: Outcome, url: string, o: Options, code: Option<int>, stdout: string, stderr: string,
                 load: string -> Option<Session>): (r: Outcome)
    ensures !start.Pending? ==> r == start
    ensures start.Pending? ==> (r.Pending? <==> CloseEffectsOf(url, o, code, stdout, stderr, load).threw && code == Some(1))
  {
    SettleAll(start, CloseEffectsOf(url, o, code, stdout, stderr, load).attempts)
  }

  /** Both file paths are found in the transcript: the handler reaches the session read (line 127). */
  predicate PathsFound(stdout: string)
  {
    && Contains(stdout, FINISHED_INDEXING)
    && !Contains(stdout, NO_URLS_TO_SAVE)
    && Contains(stdout, SAVING_URL_LIST)
    && Contains(FinalSegment(stdout).value, SAVED_SESSION)
    && Contains(FinalSegment(stdout).value, SAVED_URL_LIST)
  }

  /** The session path of line 107. */
  function SessionPath(stdout: string): string
    requires PathsFound(stdout)
  {
    Capture(FinalSegment(stdout).value, SAVED_SESSION).value
  }

  /** The URL-list path of line 113. */
  function UrlListPath(stdout: string): string
    requires PathsFound(stdout)
  {
    Capture(FinalSegment(stdout).value, SAVED_URL_LIST).value
  }

  /** The chain of lines 83-161 reaches the session read exactly when both paths are found. */
  lemma ChainReachesLoad(url: string, o: Options, stdout: string, load: string -> Option<Session>)
    ensures PathsFound(stdout) ==>
      ChainEffects(url, o, stdout, load)
      == LoadEffects(url, o, FinalSegment(stdout).value, SessionPath(stdout), UrlListPath(stdout), load)
    ensures !PathsFound(stdout) ==> ChainEffects(url, o, stdout, load).unlinked == []
  {
  }

  /** Any exit code other than 1 settles the scan as an exit failure, whatever the transcript says. */
  lemma ExitFailureWins(url: string, o: Options, code: Option<int>, stdout: string, stderr: string,
                        load: string -> Option<Session>)
    requires code != Some(1)
    ensures Close(Pending, url, o, code, stdout, stderr, load) == Rejected(ExitFailure(code, stderr))
  {
  }

  /**
   * With exit code 1, a transcript without `Finished indexing` never finished
   * indexing, and one with it that says `No URLs to save` found nothing.
   */
  lemma MarkersInOrder(url: string, o: Options, stdout: string, stderr: string, load: string -> Option<Session>)
    ensures !Contains(stdout, FINISHED_INDEXING)
      ==> Close(Pending, url, o, Some(1), stdout, stderr, load) == Rejected(NeverFinishedIndexing)
    ensures Contains(stdout, FINISHED_INDEXING) && Contains(stdout, NO_URLS_TO_SAVE)
      ==> Close(Pending, url, o, Some(1), stdout, stderr, load) == Rejected(NothingFound)
  {
  }

  /**
   * Without the `Saving URL list to file..` marker the segment is `undefined`:
   * the handler throws, deletes nothing and leaves a promise with exit code 1 pending.
   */
  lemma MissingSegmentThrows(url: string, o: Options, code: Option<int>, stdout: string, stderr: string,
                             load: string -> Option<Session>)
    requires Contains(stdout, FINISHED_INDEXING) && !Contains(stdout, NO_URLS_TO_SAVE)
    requires !Contains(stdout, SAVING_URL_LIST)
    ensures CloseEffectsOf(url, o, code, stdout, stderr, load).threw
    ensures CloseEffectsOf(url, o, code, stdout, stderr, load).unlinked == []
    ensures code == Some(1) ==> Close(Pending, url, o, code, stdout, stderr, load) == Pending
  {
  }

  /**
   * The session path is looked for before the URL-list path: a segment
   * without it is rejected as "session file not found", whether or not the
   * URL-list path is there; a missing URL-list path comes next. Neither deletes a file.
   */
  lemma MissingPaths(url: string, o: Options, stdout: string, stderr: string, load: string -> Option<Session>)
    requires Contains(stdout, FINISHED_INDEXING) && !Contains(stdout, NO_URLS_TO_SAVE)
    requires Contains(stdout, SAVING_URL_LIST)
    ensures !Contains(FinalSegment(stdout).value, SAVED_SESSION)
      ==> Close(Pending, url, o, Some(1), stdout, stderr, load) == Rejected(SessionFileNotFound)
    ensures Contains(FinalSegment(stdout).value, SAVED_SESSION) && !Contains(FinalSegment(stdout).value, SAVED_URL_LIST)
      ==> Close(Pending, url, o, Some(1), stdout, stderr, load) == Rejected(UrlListFileNotFound)
    ensures !PathsFound(stdout) ==> CloseEffectsOf(url, o, Some(1), stdout, stderr, load).unlinked == []
  {
    ChainReachesLoad(url, o, stdout, load);
  }

  /**
   * The files deleted, whatever the exit code: the URL list exactly when it
   * is not kept, then the session file exactly when it was read and is not
   * kept; nothing when a path is missing.
   */
  lemma Deletions(url: string, o: Options, code: Option<int>, stdout: string, stderr: string,
                  load: string -> Option<Session>)
    ensures CloseEffectsOf(url, o, code, stdout, stderr, load).unlinked
      == if !PathsFound(stdout) then []
         else (if o.keepUrlFile then [] else [UrlListPath(stdout)])
              + (if load(SessionPath(stdout)).Some? && !o.keepJsonFile then [SessionPath(stdout)] else [])
  {
    ChainReachesLoad(url, o, stdout, load);
  }

  /** The scan resolves exactly when the process exits with 1, both paths are found and the session reads. */
  lemma ResolvesExactly(url: string, o: Options, code: Option<int>, stdout: string, stderr: string,
                        load: string -> Option<Session>)
    ensures Close(Pending, url, o, code, stdout, stderr, load).Resolved?
      <==> code == Some(1) && PathsFound(stdout) && load(SessionPath(stdout)).Some?
  {
    if code != Some(1) {
      ExitFailureWins(url, o, code, stdout, stderr, load);
    } else if PathsFound(stdout) {
      ResultRecord(url, o, stdout, stderr, load);
    } else {
      NoResolveWithoutPaths(url, o, stdout, load);
    }
  }

  /** Before both paths are found, the chain makes no `resolve` call. */
  lemma NoResolveWithoutPaths(url: string, o: Options, stdout: string, load: string -> Option<Session>)
    requires !PathsFound(stdout)
    ensures forall s <- ChainEffects(url, o, stdout, load).attempts :: s.Reject?
  {
  }

  /**
   * The record a scan resolves with, or attaches to the "unreadable results"
   * failure: the URL, the session, each path only when it is kept, the report
   * of the segment and the credits.
   */
  lemma ResultRecord(url: string, o: Options, stdout: string, stderr: string, load: string -> Option<Session>)
    requires PathsFound(stdout)
    ensures var segment := FinalSegment(stdout).value;
      var jsonFile := SessionPath(stdout);
      var result := ScanResult(url, load(jsonFile), KeptPath(o.keepJsonFile, jsonFile),
                               KeptPath(o.keepUrlFile, UrlListPath(stdout)), Report(segment), CREDITS);
      Close(Pending, url, o, Some(1), stdout, stderr, load)
      == if load(jsonFile).Some? then Resolved(result) else Rejected(ResultsUnreadable(result))
  {
    ChainReachesLoad(url, o, stdout, load);
  }
}
