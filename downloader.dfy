/**
 * The scanner wrapper as objects (open-directory-downloader.js): the
 * wrapper, and one scan whose handlers accumulate the process output and
 * settle its promise at most once.
 */
module Downloader {
  import opened Wrappers
  import opened Extraction
  import opened ScanArguments
  import opened ScanOutcome
  import Config

  /** The files of `paths` whose deletion `unlinkOk` lets succeed, in order. */
  function Deleted(paths: seq<string>, unlinkOk: string -> bool): (r: seq<string>)
    ensures forall p :: p in r <==> p in paths && unlinkOk(p)
    ensures |r| <= |paths|
  {
    if paths == [] then []
    else (if unlinkOk(paths[0]) then [paths[0]] else []) + Deleted(paths[1..], unlinkOk)
  }

  lemma {:induction false} DeletedAppend(front: seq<string>, back: seq<string>, unlinkOk: string -> bool)
    ensures Deleted(front + back, unlinkOk) == Deleted(front, unlinkOk) + Deleted(back, unlinkOk)
    decreases |front|
  {
    if front == [] {
      assert front + back == back;
    } else {
      var head := if unlinkOk(front[0]) then [front[0]] else [];
      assert (front + back)[0] == front[0];
      assert (front + back)[1..] == front[1..] + back;
      calc {
        Deleted(front + back, unlinkOk);
        head + Deleted(front[1..] + back, unlinkOk);
        { DeletedAppend(front[1..], back, unlinkOk); }
        head + (Deleted(front[1..], unlinkOk) + Deleted(back, unlinkOk));
        { assert head + (Deleted(front[1..], unlinkOk) + Deleted(back, unlinkOk))
            == head + Deleted(front[1..], unlinkOk) + Deleted(back, unlinkOk); }
        head + Deleted(front[1..], unlinkOk) + Deleted(back, unlinkOk);
        Deleted(front, unlinkOk) + Deleted(back, unlinkOk);
      }
    }
  }

  /** Two unlink stages after an earlier history delete what one stage over both lists would. */
  lemma DeletedAfter(history: seq<string>, front: seq<string>, back: seq<string>, unlinkOk: string -> bool)
    ensures history + Deleted(front, unlinkOk) + Deleted(back, unlinkOk) == history + Deleted(front + back, unlinkOk)
  {
    DeletedAppend(front, back, unlinkOk);
    assert history + Deleted(front, unlinkOk) + Deleted(back, unlinkOk)
      == history + (Deleted(front, unlinkOk) + Deleted(back, unlinkOk));
  }

  /** Lines 6-17: the wrapper remembers its executable and its output directory, creating the latter if missing. */
  class OpenDirectoryDownloader {
    const executable: string
    const outputDir: string
    /** Whether the constructor had to create the output directory. */
    const createdOutputDir: bool

    /** A missing argument takes its default from the installation layout rooted at `root`. */
    constructor(executablePath: Option<string>, outputDirectory: Option<string>, root: string, platform: string,
                outputDirExists: bool)
      ensures executable == if executablePath.Some? then executablePath.value else Config.ExecutablePath(root, platform)
      ensures outputDir == if outputDirectory.Some? then outputDirectory.value else Config.OutputFolder(root)
      ensures createdOutputDir == !outputDirExists
    {
      executable := if executablePath.Some? then executablePath.value else Config.ExecutablePath(root, platform);
      outputDir := if outputDirectory.Some? then outputDirectory.value else Config.OutputFolder(root);
      createdOutputDir := !outputDirExists;
    }

    /** Lines 29-56: a new scan with defaulted options, its argument list and its shell command. */
    method ScanUrl(url: string, raw: RawOptions) returns (scan: Scan)
      ensures fresh(scan)
      ensures scan.url == url && scan.options == Normalize(raw) && scan.cwd == outputDir
      ensures scan.args == Arguments(url, scan.options)
      ensures scan.command == CommandLine(executable, scan.args)
      ensures scan.stdout == "" && scan.stderr == "" && scan.outcome == Pending && scan.deleted == []
    {
      var options := Normalize(raw);
      var args := BuildArguments(url, options);
      scan := new Scan(url, options, args, CommandLine(executable, args), outputDir);
    }
  }

  /** One running scan: the handlers of lines 61-160 and the promise they settle. */
  class Scan {
    const url: string
    const options: Options
    const args: seq<string>
    const command: string
    const cwd: string
    /** `output`: everything the process wrote to standard output so far. */
    var stdout: string
    /** `error`: everything the process wrote to standard error so far. */
    var stderr: string
    var outcome: Outcome
    /** The files the close handler deleted; a failed deletion is swallowed. */
    var deleted: seq<string>

    constructor(url: string, options: Options, args: seq<string>, command: string, cwd: string)
      ensures this.url == url && this.options == options && this.args == args
      ensures this.command == command && this.cwd == cwd
      ensures stdout == "" && stderr == "" && outcome == Pending && deleted == []
    {
      this.url := url;
      this.options := options;
      this.args := args;
      this.command := command;
      this.cwd := cwd;
      stdout := "";
      stderr := "";
      outcome := Pending;
      deleted := [];
    }

    /** Lines 61-64: a chunk of standard output is appended. */
    method OnStdout(chunk: string)
      modifies this
      ensures stdout == old(stdout) + chunk
      ensures stderr == old(stderr) && outcome == old(outcome) && deleted == old(deleted)
    {
      stdout := stdout + chunk;
    }

    /** Lines 66-69: a chunk of standard error is appended. */
    method OnStderr(chunk: string)
      modifies this
      ensures stderr == old(stderr) + chunk
      ensures stdout == old(stdout) && outcome == old(outcome) && deleted == old(deleted)
    {
      stderr := stderr + chunk;
    }

    /** Lines 71-73: the process could not be run. */
    method OnError(message: string)
      modifies this
      ensures outcome == Settle(old(outcome), Reject(ProcessError(message)))
      ensures stdout == old(stdout) && stderr == old(stderr) && deleted == old(deleted)
    {
      Settles(Reject(ProcessError(message)));
    }

    /** `reject(...)` or `resolve(...)`: only the first call on the promise has an effect. */
    method Settles(s: Settlement)
      modifies this
      ensures outcome == Settle(old(outcome), s)
      ensures stdout == old(stdout) && stderr == old(stderr) && deleted == old(deleted)
    {
      if outcome.Pending? {
        outcome := Entered(s);
      }
    }

    /** `try { fs.unlinkSync(path) } catch {}`. */
    method Unlink(path: string, unlinkOk: string -> bool)
      modifies this
      ensures deleted == old(deleted) + Deleted([path], unlinkOk)
      ensures stdout == old(stdout) && stderr == old(stderr) && outcome == old(outcome)
    {
      if unlinkOk(path) {
        deleted := deleted + [path];
      }
    }

    /**
     * Lines 75-161. `load` reads and parses a session file, `unlinkOk` says
     * whether deleting a file succeeds; `threw` is the uncaught `TypeError`
     * of line 101.
     */
    method OnClose(code: Option<int>, load: string -> Option<Session>, unlinkOk: string -> bool)
      returns (threw: bool)
      modifies this
      ensures var effects := CloseEffectsOf(url, options, code, old(stdout), old(stderr), load);
        && outcome == SettleAll(old(outcome), effects.attempts)
        && deleted == old(deleted) + Deleted(effects.unlinked, unlinkOk)
        && threw == effects.threw
      ensures stdout == old(stdout) && stderr == old(stderr)
    {
      ghost var start := outcome;
      ghost var attempts: seq<Settlement> := [];
      if code != Some(1) {
        Settles(Reject(ExitFailure(code, stderr)));
        attempts := [Reject(ExitFailure(code, stderr))];
      }
      ghost var exit := attempts;
      assert outcome == SettleAll(start, exit);
      if !SplitsOn(stdout, FINISHED_INDEXING) {
        Settles(Reject(NeverFinishedIndexing));
        SettleAllSnoc(start, exit, Reject(NeverFinishedIndexing));
        return false;
      }
      if SplitsOn(stdout, NO_URLS_TO_SAVE) {
        Settles(Reject(NothingFound));
        SettleAllSnoc(start, exit, Reject(NothingFound));
        return false;
      }
      var finalResults := FinalSegment(stdout);
      if finalResults.None? {
        return true;
      }
      threw := false;
      SegmentStage(start, exit, finalResults.value, load, unlinkOk);
    }

    /** Lines 101-161, once the segment is known. */
    method SegmentStage(ghost start: Outcome, ghost exit: seq<Settlement>, segment: string,
                        load: string -> Option<Session>, unlinkOk: string -> bool)
      requires outcome == SettleAll(start, exit)
      modifies this
      ensures var effects := SegmentEffects(url, options, segment, load);
        && outcome == SettleAll(start, exit + effects.attempts)
        && deleted == old(deleted) + Deleted(effects.unlinked, unlinkOk)
      ensures stdout == old(stdout) && stderr == old(stderr)
    {
      var redditOutput := Report(segment);
      var sessionMatch := Capture(segment, SAVED_SESSION);
      if sessionMatch.None? {
        Settles(Reject(SessionFileNotFound));
        SettleAllSnoc(start, exit, Reject(SessionFileNotFound));
        return;
      }
      var jsonFile := sessionMatch.value;
      var urlListMatch := Capture(segment, SAVED_URL_LIST);
      if urlListMatch.None? {
        Settles(Reject(UrlListFileNotFound));
        SettleAllSnoc(start, exit, Reject(UrlListFileNotFound));
        return;
      }
      LoadStage(start, exit, segment, redditOutput, jsonFile, urlListMatch.value, load, unlinkOk);
    }

    /** Lines 114-161, once both paths are known. */
    method LoadStage(ghost start: Outcome, ghost exit: seq<Settlement>, segment: string, redditOutput: string,
                     jsonFile: string, urlFile: string, load: string -> Option<Session>, unlinkOk: string -> bool)
      requires outcome == SettleAll(start, exit)
      requires redditOutput == Report(segment)
      modifies this
      ensures var effects := LoadEffects(url, options, segment, jsonFile, urlFile, load);
        && outcome == SettleAll(start, exit + effects.attempts)
        && deleted == old(deleted) + Deleted(effects.unlinked, unlinkOk)
      ensures stdout == old(stdout) && stderr == old(stderr)
    {
      ghost var effects := LoadEffects(url, options, segment, jsonFile, urlFile, load);
      if !options.keepUrlFile {
        Unlink(urlFile, unlinkOk);
      }
      ghost var urlUnlink := if options.keepUrlFile then [] else [urlFile];
      assert deleted == old(deleted) + Deleted(urlUnlink, unlinkOk);
      var record := ScanResult(url, None, KeptPath(options.keepJsonFile, jsonFile),
                               KeptPath(options.keepUrlFile, urlFile), redditOutput, CREDITS);
      assert record == Record(url, options, segment, jsonFile, urlFile);
      var results := load(jsonFile);
      if results.Some? {
        ghost var jsonUnlink := if options.keepJsonFile then [] else [jsonFile];
        ghost var middle := deleted;
        if !options.keepJsonFile {
          Unlink(jsonFile, unlinkOk);
        }
        assert deleted == middle + Deleted(jsonUnlink, unlinkOk);
        DeletedAfter(old(deleted), urlUnlink, jsonUnlink, unlinkOk);
        Settles(Resolve(record.(scan := results)));
        SettleAllSnoc(start, exit, Resolve(record.(scan := results)));
        assert effects.attempts == [Resolve(record.(scan := results))];
        assert effects.unlinked == urlUnlink + jsonUnlink;
      } else {
        Unreadable(start, exit, record);
        assert effects.attempts == [Reject(ResultsUnreadable(record)), Resolve(record)];
        assert effects.unlinked == urlUnlink;
      }
    }

    /** Lines 141-159: the session could not be read; the rejection wins over the later `resolve`. */
    method Unreadable(ghost start: Outcome, ghost exit: seq<Settlement>, record: ScanResult)
      requires outcome == SettleAll(start, exit)
      modifies this
      ensures outcome == SettleAll(start, exit + [Reject(ResultsUnreadable(record)), Resolve(record)])
      ensures stdout == old(stdout) && stderr == old(stderr) && deleted == old(deleted)
    {
      Settles(Reject(ResultsUnreadable(record)));
      SettleAllSnoc(start, exit, Reject(ResultsUnreadable(record)));
      Settles(Resolve(record));
      SettleAllSnoc(start, exit + [Reject(ResultsUnreadable(record))], Resolve(record));
      assert exit + [Reject(ResultsUnreadable(record)), Resolve(record)]
        == exit + [Reject(ResultsUnreadable(record))] + [Resolve(record)];
    }
  }
}
