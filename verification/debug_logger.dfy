/** The bounded log list of SweetBlue's `DebugLogger`.

    The logger keeps at most `maxLogSize` formatted entries, dropping the oldest
    when full. Entries are opaque strings: their formatting and the logcat output
    are not part of this model. Java's exceptions are the `Err` side of a `Result`.
    The three queries read only the list, so each takes a logger's `logList`. */
module DebugLogger {
  import opened Wrappers

  const DEFAULT_MAX_SIZE: int := 50

  /** The priorities of `android.util.Log`. */
  const VERBOSE: int := 2
  const DEBUG: int := 3
  const INFO: int := 4
  const WARN: int := 5
  const ERROR: int := 6
  const ASSERT: int := 7

  const INT32_MIN: int := -0x8000_0000
  const INT32_MAX: int := 0x7fff_ffff

  /** A Java `int`. */
  type Int32 = x: int | INT32_MIN <= x <= INT32_MAX

  /** The exceptions the list operations can throw. */
  datatype JavaException = IllegalArgument | IndexOutOfBounds

  datatype Logger = Logger(maxLogSize: int, logList: seq<string>)

  /** A logger as it can exist: a non-negative capacity that the list respects. */
  predicate Valid(l: Logger) {
    0 <= l.maxLogSize && |l.logList| <= l.maxLogSize
  }

  /** `new DebugLogger(maxLogSize)`: `new ArrayList(maxLogSize)` rejects a
      negative capacity; otherwise the logger starts empty. */
  function New(maxLogSize: Int32): (r: Result<Logger, JavaException>)
    ensures r.Err? <==> maxLogSize < 0
    ensures r.Err? ==> r.error == IllegalArgument
    ensures r.Ok? ==> Valid(r.value) && r.value.logList == [] && r.value.maxLogSize == maxLogSize
  {
    if maxLogSize < 0 then Err(IllegalArgument) else Ok(Logger(maxLogSize, []))
  }

  /** `new DebugLogger()`. */
  function Default(): (l: Logger)
    ensures Valid(l) && l.maxLogSize == DEFAULT_MAX_SIZE && l.logList == []
  {
    New(DEFAULT_MAX_SIZE).value
  }

  /** The list part of `onLogEntry`: when the list is full, remove index 0, then
      append. With `maxLogSize == 0` the removal hits an empty list and throws.
      Otherwise the list afterwards is exactly the newest `maxLogSize` entries of
      the old list followed by the new entry. */
  function OnLogEntry(l: Logger, entry: string): (r: Result<Logger, JavaException>)
    requires Valid(l)
    ensures r.Err? <==> l.maxLogSize == 0
    ensures r.Err? ==> r.error == IndexOutOfBounds
    ensures r.Ok? ==> Valid(r.value) && r.value.maxLogSize == l.maxLogSize
    ensures r.Ok? ==> r.value.logList == GetLastLogs(l.logList + [entry], l.maxLogSize)
    ensures r.Ok? ==> r.value.logList[|r.value.logList| - 1] == entry
  {
    if |l.logList| == l.maxLogSize then
      if |l.logList| == 0 then Err(IndexOutOfBounds)
      else Ok(l.(logList := l.logList[1..] + [entry]))
    else
      Ok(l.(logList := l.logList + [entry]))
  }

  /** `getLastLogs(count)`, as evidently intended: the newest `min(count, size)`
      entries in their original order, and nothing for a non-positive count.
      This is a reference definition, so its contract is close to its body; what
      ties it to the source is `DebugLoggerProperties.GetLastLogsAsWritten`,
      whose contract proves the loop as written returns exactly this whenever it
      does not throw. */
  function GetLastLogs(logList: seq<string>, count: int): (r: seq<string>)
    ensures |r| == NewestCount(|logList|, count)
    ensures r == logList[|logList| - NewestCount(|logList|, count)..]
  {
    if count <= 0 then [] else logList[|logList| - Min(count, |logList|)..]
  }

  /** How many entries `getLastLogs(count)` returns from a list of `size`. */
  function NewestCount(size: nat, count: int): (k: nat)
    ensures k <= size
    ensures count <= 0 ==> k == 0
    ensures count > 0 ==> k == Min(count, size)
  {
    if count <= 0 then 0 else Min(count, size)
  }

  /** `getLastLog()`: the newest entry, or the empty string for an empty log. */
  function GetLastLog(logList: seq<string>): (r: string)
    ensures |logList| > 0 ==> r == logList[|logList| - 1]
    ensures |logList| == 0 ==> r == ""
  {
    if |logList| > 0 then logList[|logList| - 1] else ""
  }

  /** `getLogList()`: a copy holding the same entries in the same order. */
  function GetLogList(logList: seq<string>): (r: seq<string>)
    ensures |r| == |logList|
    ensures forall k :: 0 <= k < |r| ==> r[k] == logList[k]
  {
    logList
  }

  /** The private `level(int)`: the name of an Android log priority. */
  function Level(level: int): (name: string)
    ensures name == "Unknown" <==> !(VERBOSE <= level <= ASSERT)
  {
    match level
    case 2 => "Verbose"
    case 3 => "Debug"
    case 4 => "Info"
    case 5 => "Warn"
    case 6 => "Error"
    case 7 => "Assert"
    case _ => "Unknown"
  }

  /** The priority a level name stands for, if any: the inverse of `Level`. */
  function Priority(name: string): Option<int> {
    if name == "Verbose" then Some(VERBOSE)
    else if name == "Debug" then Some(DEBUG)
    else if name == "Info" then Some(INFO)
    else if name == "Warn" then Some(WARN)
    else if name == "Error" then Some(ERROR)
    else if name == "Assert" then Some(ASSERT)
    else None
  }
}
