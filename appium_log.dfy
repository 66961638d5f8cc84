/** AppiumLogController: where a device's Appium log lives, and the not-found
    guards of reading and deleting it. The configured log directory, the
    directory separator, the environment variables and the file system are
    parameters. */
module AppiumLog {
  import opened Wrappers
  import opened Models
  import opened Store
  import opened Http

  /** Ordinal EndsWith of a one-character string. */
  predicate EndsWithChar(s: string, c: char) {
    |s| > 0 && s[|s| - 1] == c
  }

  /** The configured directory joined with "<deviceId>.log": no separator is
      added when the directory already ends with one. */
  function JoinLogPath(directory: string, deviceId: string, sep: char): string {
    if EndsWithChar(directory, sep) then directory + deviceId + ".log"
    else directory + [sep] + deviceId + ".log"
  }

  /** The joined path is the directory, followed by exactly one separator that
      the directory may already supply, then the file name. */
  lemma JoinLogPathShape(directory: string, deviceId: string, sep: char)
    ensures var p := JoinLogPath(directory, deviceId, sep);
      var file := deviceId + ".log";
      && |p| > |file|
      && p[|p| - |file|..] == file
      && p[..|p| - |file|][|p| - |file| - 1] == sep
      && (EndsWithChar(directory, sep) ==> p[..|p| - |file|] == directory)
      && (!EndsWithChar(directory, sep) ==> p[..|p| - |file|] == directory + [sep])
  {
    var file := deviceId + ".log";
    if EndsWithChar(directory, sep) {
      assert JoinLogPath(directory, deviceId, sep) == directory + file;
    } else {
      assert JoinLogPath(directory, deviceId, sep) == (directory + [sep]) + file;
    }
  }

  /** String.Replace("~", with): every '~' becomes `with`; a null replacement
      removes them, which is the empty string here. */
  function ReplaceTilde(s: string, with: string): (r: string)
    ensures (forall i :: 0 <= i < |s| ==> s[i] != '~') ==> r == s
  {
    if s == [] then []
    else (if s[0] == '~' then with else [s[0]]) + ReplaceTilde(s[1..], with)
  }

  /** Replacing distributes over concatenation. */
  lemma {:induction false} ReplaceTildeConcat(a: string, b: string, with: string)
    ensures ReplaceTilde(a + b, with) == ReplaceTilde(a, with) + ReplaceTilde(b, with)
    decreases |a|
  {
    if a != [] {
      assert (a + b)[1..] == a[1..] + b;
      ReplaceTildeConcat(a[1..], b, with);
    } else {
      assert a + b == b;
    }
  }

  /** After expansion no '~' is left, unless the home directory holds one. */
  lemma {:induction false} ReplaceTildeRemovesAll(s: string, with: string)
    requires forall i :: 0 <= i < |with| ==> with[i] != '~'
    ensures forall i :: 0 <= i < |ReplaceTilde(s, with)| ==> ReplaceTilde(s, with)[i] != '~'
    decreases |s|
  {
    if s != [] {
      ReplaceTildeRemovesAll(s[1..], with);
      var head := if s[0] == '~' then with else [s[0]];
      assert ReplaceTilde(s, with) == head + ReplaceTilde(s[1..], with);
    }
  }

  /** Each '~' gives way to one copy of the replacement. */
  lemma {:induction false} ReplaceTildeLength(s: string, with: string)
    ensures |ReplaceTilde(s, with)| == |s| - TildeCount(s) + TildeCount(s) * |with|
    decreases |s|
  {
    if s != [] {
      ReplaceTildeLength(s[1..], with);
      var n := TildeCount(s[1..]);
      var m := |with|;
      var tail := ReplaceTilde(s[1..], with);
      assert |tail| == |s| - 1 - n + n * m;
      if s[0] == '~' {
        assert ReplaceTilde(s, with) == with + tail;
        assert TildeCount(s) == n + 1;
        assert (n + 1) * m == n * m + m;
      } else {
        assert ReplaceTilde(s, with) == [s[0]] + tail;
        assert TildeCount(s) == n;
      }
    }
  }

  function TildeCount(s: string): nat {
    if s == [] then 0 else (if s[0] == '~' then 1 else 0) + TildeCount(s[1..])
  }

  /** Environment.GetEnvironmentVariable("userprofile"), falling back to
      "HOME" when that is null or empty; None stands for null. */
  function HomeDir(userprofile: Option<string>, home: Option<string>): (h: Option<string>)
    ensures userprofile.Some? && userprofile.value != "" ==> h == userprofile
    ensures (userprofile.None? || userprofile.value == "") ==> h == home
  {
    if userprofile.Some? && userprofile.value != "" then userprofile else home
  }

  /** GetAppiumLogFilePath: the joined path, with every '~' replaced by the
      home directory when it starts with '~'. */
  function AppiumLogFilePath(directory: string, deviceId: string, sep: char,
                             userprofile: Option<string>, home: Option<string>): string
  {
    var joined := JoinLogPath(directory, deviceId, sep);
    if |joined| > 0 && joined[0] == '~' then ReplaceTilde(joined, HomeDir(userprofile, home).GetOr(""))
    else joined
  }

  /** A path that does not start with '~' is the joined path as is, so it
      ends with "<deviceId>.log"; one that does has all its '~' replaced by the
      home directory. */
  lemma AppiumLogFilePathProperties(directory: string, deviceId: string, sep: char,
                                    userprofile: Option<string>, home: Option<string>)
    ensures var joined := JoinLogPath(directory, deviceId, sep);
      var p := AppiumLogFilePath(directory, deviceId, sep, userprofile, home);
      && (joined[0] != '~' ==> p == joined && p[|p| - |deviceId + ".log"|..] == deviceId + ".log")
      && (joined[0] == '~' ==>
            var h := HomeDir(userprofile, home).GetOr("");
            (forall i :: 0 <= i < |h| ==> h[i] != '~') ==>
              forall i :: 0 <= i < |p| ==> p[i] != '~')
  {
    JoinLogPathShape(directory, deviceId, sep);
    var joined := JoinLogPath(directory, deviceId, sep);
    var h := HomeDir(userprofile, home).GetOr("");
    if joined[0] == '~' && forall i :: 0 <= i < |h| ==> h[i] != '~' {
      ReplaceTildeRemovesAll(joined, h);
    }
  }

  /** A configured directory without '~' never changes when expanded, and its
      path ends with "<deviceId>.log" whatever the environment. */
  lemma NoTildeNoExpansion(directory: string, deviceId: string, sep: char,
                           userprofile: Option<string>, home: Option<string>)
    requires sep != '~'
    requires forall i :: 0 <= i < |directory| ==> directory[i] != '~'
    requires forall i :: 0 <= i < |deviceId| ==> deviceId[i] != '~'
    ensures AppiumLogFilePath(directory, deviceId, sep, userprofile, home) == JoinLogPath(directory, deviceId, sep)
  {
    var joined := JoinLogPath(directory, deviceId, sep);
    var file := deviceId + ".log";
    JoinLogPathShape(directory, deviceId, sep);
    forall i | 0 <= i < |joined| ensures joined[i] != '~' {
      if i >= |joined| - |file| {
        assert joined[i] == joined[|joined| - |file|..][i - (|joined| - |file|)];
      } else {
        assert joined[i] == joined[..|joined| - |file|][i];
      }
    }
  }

  /** What GetAppiumLogFilePath reads: the configured log directory, the
      platform's directory separator and the two environment variables. */
  datatype LogSettings = LogSettings(
    directory: string,
    separator: char,
    userprofile: Option<string>,
    home: Option<string>)

  function LogPath(settings: LogSettings, deviceId: string): string {
    AppiumLogFilePath(settings.directory, deviceId, settings.separator, settings.userprofile, settings.home)
  }

  /** The file system as seen by the controller: whether a path exists, its
      text, and whether deleting it raises (with the exception message). */
  datatype FileSystem = FileSystem(
    fileExists: string -> bool,
    readAllText: string -> string,
    deleteRaises: string -> Option<string>)

  /** GetById: 404 for an unknown device, before any path is computed; 404
      when the log file is missing; otherwise the file's text. */
  function GetById(devices: seq<Device>, id: string, settings: LogSettings, fs: FileSystem): (r: Response<string>)
    ensures FindDevice(devices, id).None? ==> r == ClientError(404, "DeviceId not found in database.")
    ensures FindDevice(devices, id).Some? && !fs.fileExists(LogPath(settings, id)) ==>
      r == ClientError(404, "Appium log not found on path:" + LogPath(settings, id))
    ensures r.Success? <==> FindDevice(devices, id).Some? && fs.fileExists(LogPath(settings, id))
    ensures r.Success? ==> r.body == fs.readAllText(LogPath(settings, id))
  {
    if FindDevice(devices, id).None? then ClientError(404, "DeviceId not found in database.")
    else
      var path := LogPath(settings, id);
      if !fs.fileExists(path) then ClientError(404, "Appium log not found on path:" + path)
      else Success(fs.readAllText(path))
  }

  /** Delete: the same two 404 guards; a failing delete is 500 with the
      exception message; otherwise 200. */
  function Delete(devices: seq<Device>, id: string, settings: LogSettings, fs: FileSystem): (r: Response<string>)
    ensures FindDevice(devices, id).None? ==> r == ClientError(404, "DeviceId not found in database.")
    ensures FindDevice(devices, id).Some? && !fs.fileExists(LogPath(settings, id)) ==>
      r == ClientError(404, "Appium log not found on path:" + LogPath(settings, id))
    ensures r == SuccessEmpty <==>
      FindDevice(devices, id).Some? && fs.fileExists(LogPath(settings, id)) && fs.deleteRaises(LogPath(settings, id)).None?
    ensures r.ServerError? ==>
      fs.deleteRaises(LogPath(settings, id)).Some? && r.message == "Failed to delete AppiumLog. " + fs.deleteRaises(LogPath(settings, id)).value
  {
    if FindDevice(devices, id).None? then ClientError(404, "DeviceId not found in database.")
    else
      var path := LogPath(settings, id);
      if !fs.fileExists(path) then ClientError(404, "Appium log not found on path:" + path)
      else match fs.deleteRaises(path)
        case Some(message) => ServerError("Failed to delete AppiumLog. " + message)
        case None => SuccessEmpty
  }

  /** The not-found guard comes before the path: an unknown device is refused
      with 404 whatever the settings and the file system. */
  lemma UnknownDeviceIgnoresPath(devices: seq<Device>, id: string, s1: LogSettings, s2: LogSettings, fs1: FileSystem, fs2: FileSystem)
    requires FindDevice(devices, id).None?
    ensures GetById(devices, id, s1, fs1) == GetById(devices, id, s2, fs2)
    ensures Delete(devices, id, s1, fs1) == Delete(devices, id, s2, fs2)
  {
  }
}
