/**
 * The command line a scan starts the scanner with
 * (open-directory-downloader.js:32-50).
 */
module ScanArguments {
  import opened Wrappers
  import opened JsStrings

  const QUIT := "--quit"
  const JSON := "--json"
  const UPLOAD_URLS := "--upload-urls"
  const SPEEDTEST := "--speedtest"
  const OUTPUT_FILE := "--output-file"

  /** The options object as the caller passes it: every field may be missing. */
  datatype RawOptions = RawOptions(
    outputFile: Option<string>,
    keepJsonFile: Option<bool>,
    keepUrlFile: Option<bool>,
    performSpeedtest: Option<bool>,
    uploadUrlFile: Option<bool>)

  /** The options once the four flags have been defaulted. */
  datatype Options = Options(
    outputFile: Option<string>,
    keepJsonFile: bool,
    keepUrlFile: bool,
    performSpeedtest: bool,
    uploadUrlFile: bool)

  /** `flag || false`: a missing flag reads as `false`. */
  function OrFalse(flag: Option<bool>): (b: bool)
    ensures b <==> flag == Some(true)
  {
    match flag
    case None => false
    case Some(v) => v
  }

  /** Lines 32-35: the four flags default to `false`; the output file is left as given. */
  function Normalize(raw: RawOptions): (o: Options)
    ensures o.outputFile == raw.outputFile
    ensures o.keepJsonFile <==> raw.keepJsonFile == Some(true)
    ensures o.keepUrlFile <==> raw.keepUrlFile == Some(true)
    ensures o.performSpeedtest <==> raw.performSpeedtest == Some(true)
    ensures o.uploadUrlFile <==> raw.uploadUrlFile == Some(true)
  {
    Options(raw.outputFile, OrFalse(raw.keepJsonFile), OrFalse(raw.keepUrlFile),
            OrFalse(raw.performSpeedtest), OrFalse(raw.uploadUrlFile))
  }

  /** Line 45: `options.outputFile && options.outputFile.length > 0`; a missing or empty name asks for nothing. */
  predicate WantsOutputFile(o: Options): (b: bool)
    ensures b ==> o.outputFile.Some? && o.outputFile.value != ""
    ensures o.outputFile.None? || o.outputFile == Some("") ==> !b
  {
    o.outputFile.Some? && |o.outputFile.value| > 0
  }

  /** The three entries every argument list starts with: the URL behind `-u `, then the two fixed flags. */
  function BaseArguments(url: string): (args: seq<string>)
    ensures |args| == 3 && "-u " <= args[0] && args[0][3..] == url
    ensures args[1..] == [QUIT, JSON]
  {
    ["-u " + url, QUIT, JSON]
  }

  /** The argument list lines 38-48 build, in order. */
  function Arguments(url: string, o: Options): (args: seq<string>)
    ensures |args| >= 3 && args[..3] == BaseArguments(url)
    ensures |args| == 3 + (if o.performSpeedtest then 2 else 0) + (if WantsOutputFile(o) then 2 else 0)
    ensures o.performSpeedtest <==> args[3..] != [] && args[3] == UPLOAD_URLS
    ensures o.performSpeedtest ==> args[3..5] == [UPLOAD_URLS, SPEEDTEST]
    ensures WantsOutputFile(o) ==> args[|args| - 2..] == [OUTPUT_FILE, o.outputFile.value]
    ensures !WantsOutputFile(o) ==> OUTPUT_FILE !in args
  {
    assert ("-u " + url)[1] != OUTPUT_FILE[1];
    BaseArguments(url)
    + (if o.performSpeedtest then [UPLOAD_URLS] else [])
    + (if o.performSpeedtest then [SPEEDTEST] else [])
    + (if WantsOutputFile(o) then [OUTPUT_FILE, o.outputFile.value] else [])
  }

  /** Lines 38-48 as written: start from the three base entries and push the rest in order. */
  method BuildArguments(url: string, o: Options) returns (args: seq<string>)
    ensures args == Arguments(url, o)
  {
    args := ["-u " + url, QUIT, JSON];
    if o.performSpeedtest {
      args := args + [UPLOAD_URLS];
    }
    if o.performSpeedtest {
      args := args + [SPEEDTEST];
    }
    if o.outputFile.Some? && |o.outputFile.value| > 0 {
      args := args + [OUTPUT_FILE];
      args := args + [o.outputFile.value];
    }
  }

  /** `uploadUrlFile` is defaulted but never read: it does not change the argument list. */
  lemma UploadUrlFileIgnored(url: string, raw: RawOptions, upload: Option<bool>)
    ensures Arguments(url, Normalize(raw)) == Arguments(url, Normalize(raw.(uploadUrlFile := upload)))
  {
  }

  /**
   * Line 50: the shell command is the executable and the arguments, joined by
   * single spaces; it starts with the executable, a space and the first argument.
   */
  function CommandLine(executable: string, args: seq<string>): (command: string)
    ensures executable + " " <= command
    ensures args != [] ==> executable + " " + args[0] <= command
  {
    executable + " " + Join(args, " ")
  }

  /** The three base entries joined by spaces. */
  lemma JoinBaseArguments(url: string)
    ensures Join(BaseArguments(url), " ") == "-u " + url + " --quit --json"
  {
    assert Join([JSON], " ") == JSON;
    assert Join([QUIT, JSON], " ") == QUIT + " " + JSON;
  }

  /** The argument list joined by spaces: the base entries, then the optional entries. */
  lemma JoinArguments(url: string, o: Options)
    ensures var extra := Arguments(url, o)[3..];
      Join(Arguments(url, o), " ")
      == Join(BaseArguments(url), " ") + (if extra == [] then "" else " " + Join(extra, " "))
  {
    var args := Arguments(url, o);
    assert args == BaseArguments(url) + args[3..];
    JoinAfterFront(BaseArguments(url), args[3..], " ");
  }

  lemma JoinAfterFront(front: seq<string>, extra: seq<string>, sep: string)
    requires |front| >= 1
    ensures Join(front + extra, sep) == Join(front, sep) + (if extra == [] then "" else sep + Join(extra, sep))
  {
    if extra != [] {
      JoinAppend(front, extra, sep);
    } else {
      assert front + extra == front;
    }
  }

  /** The shell command is the executable, the URL, `--quit` and `--json`, then the optional entries. */
  lemma CommandLineStart(executable: string, url: string, o: Options)
    ensures var extra := Arguments(url, o)[3..];
      CommandLine(executable, Arguments(url, o))
      == executable + " " + ("-u " + url + " --quit --json") + (if extra == [] then "" else " " + Join(extra, " "))
  {
    JoinArguments(url, o);
    JoinBaseArguments(url);
  }
}
