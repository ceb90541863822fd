/** The installation layout the scanner wrapper and the installer share (config.js). */
module Config {
  const VERSION_TAG := "v1.9.3.3"
  const EXECUTABLE_NAME := "OpenDirectoryDownloader"

  /** `OpenDirectoryDownloaderFolder`, below the directory `root` the package lives in. */
  function Folder(root: string): string
  {
    root + "/ODD"
  }

  /** `OpenDirectoryDownloaderOutputFolder`: the `Scans` directory inside the installation folder. */
  function OutputFolder(root: string): string
  {
    Folder(root) + "/Scans"
  }

  /** `OpenDirectoryDownloaderPath`: the executable in the installation folder. */
  function ExecutablePath(root: string, platform: string): (path: string)
    ensures Folder(root) + "/" + EXECUTABLE_NAME <= path
    ensures (|path| >= 4 && path[|path| - 4..] == ".exe") <==> platform == "win32"
  {
    var base := Folder(root) + "/" + EXECUTABLE_NAME;
    assert base[|base| - 4..] == "ader";
    if platform == "win32" then base + ".exe" else base
  }
}
