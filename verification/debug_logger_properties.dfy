/** Properties of the `DebugLogger` list: what a sequence of log calls leaves in
    the list, how the queries relate, the inverse of the level names, and the
    `getLastLogs` loop as written, with 32-bit `int` arithmetic. */
module DebugLoggerProperties {
  import opened Wrappers
  import opened DebugLogger

  /** Log every entry in turn, stopping at the first exception. */
  function LogAll(l: Logger, entries: seq<string>): Result<Logger, JavaException>
    requires Valid(l)
    decreases |entries|
  {
    if entries == [] then Ok(l)
    else
      match OnLogEntry(l, entries[0])
      case Err(e) => Err(e)
      case Ok(next) => LogAll(next, entries[1..])
  }

  /** Logging throws exactly when the capacity is zero and there is something to
      log; otherwise the logger stays valid with the same capacity. */
  lemma {:induction false} LogAllThrowsIffNoCapacity(l: Logger, entries: seq<string>)
    requires Valid(l)
    ensures LogAll(l, entries).Err? <==> (l.maxLogSize == 0 && entries != [])
    ensures LogAll(l, entries).Ok? ==>
              Valid(LogAll(l, entries).value) && LogAll(l, entries).value.maxLogSize == l.maxLogSize
    decreases |entries|
  {
    if entries != [] {
      var r := OnLogEntry(l, entries[0]);
      if r.Ok? {
        assert LogAll(l, entries) == LogAll(r.value, entries[1..]);
        LogAllThrowsIffNoCapacity(r.value, entries[1..]);
      }
    }
  }

  /** Whatever is logged, a logger with room for at least one entry holds exactly
      the newest `maxLogSize` of everything it has seen, so never more than
      `maxLogSize` entries, the oldest dropped first. */
  lemma {:induction false} LogHoldsNewestEntries(l: Logger, entries: seq<string>)
    requires Valid(l) && l.maxLogSize >= 1
    ensures LogAll(l, entries).Ok?
    ensures LogAll(l, entries).value.logList == GetLastLogs(l.logList + entries, l.maxLogSize)
    ensures |LogAll(l, entries).value.logList| == Min(l.maxLogSize, |l.logList| + |entries|)
    decreases |entries|
  {
    if entries == [] {
      assert l.logList + entries == l.logList;
      return;
    }
    var next := LogFirst(l, entries);
    var rest := entries[1..];
    if rest == [] {
      assert l.logList + entries == l.logList + [entries[0]];
    } else {
      LogHoldsNewestEntries(next, rest);
      NewestAfterBatch(l.logList, entries, l.maxLogSize);
    }
  }

  /** Logging a non-empty batch is logging its first entry, then the rest. */
  lemma LogFirst(l: Logger, entries: seq<string>) returns (next: Logger)
    requires Valid(l) && l.maxLogSize >= 1 && entries != []
    ensures Valid(next) && next.maxLogSize == l.maxLogSize
    ensures next.logList == GetLastLogs(l.logList + [entries[0]], l.maxLogSize)
    ensures LogAll(l, entries) == LogAll(next, entries[1..])
    ensures entries[1..] == [] ==> LogAll(l, entries) == Ok(next)
  {
    next := OnLogEntry(l, entries[0]).value;
  }

  /** One entry and then the rest of a batch: the newest `n` after both is the
      newest `n` of the whole history. */
  lemma NewestAfterBatch(log: seq<string>, entries: seq<string>, n: int)
    requires n >= 1 && entries != []
    ensures GetLastLogs(GetLastLogs(log + [entries[0]], n) + entries[1..], n) == GetLastLogs(log + entries, n)
  {
    assert log + [entries[0]] + entries[1..] == log + entries;
    NewestSuffix(log + [entries[0]], entries[1..], n);
  }

  /** Appending a batch to the newest `n` entries and keeping the newest `n` is
      the same as keeping the newest `n` of the whole history. */
  lemma NewestSuffix(s: seq<string>, more: seq<string>, n: int)
    requires n >= 1
    ensures GetLastLogs(GetLastLogs(s, n) + more, n) == GetLastLogs(s + more, n)
  {
    if |s| > n {
      var all := s + more;
      var t := s[|s| - n..];
      assert GetLastLogs(s, n) == t;
      assert t + more == all[|s| - n..];
      assert GetLastLogs(t + more, n) == all[|all| - n..];
      assert GetLastLogs(all, n) == all[|all| - n..];
    } else {
      assert GetLastLogs(s, n) == s;
    }
  }

  /** The last entry is the single newest one of `getLastLogs(1)`. */
  lemma LastLogIsNewestOfLastLogs(logList: seq<string>)
    ensures |logList| > 0 ==> GetLastLogs(logList, 1) == [GetLastLog(logList)]
    ensures |logList| == 0 ==> GetLastLog(logList) == "" && forall n :: GetLastLogs(logList, n) == []
  {
  }

  /** Asking for at least as many entries as there are returns the whole list. */
  lemma LastLogsOfWholeSizeIsLogList(l: Logger, count: int)
    requires count >= |l.logList|
    ensures GetLastLogs(l.logList, count) == GetLogList(l.logList)
  {
  }

  /** Every name `Level` gives a priority maps back to that priority, and every
      named priority maps to its name. */
  lemma LevelRoundTrip(level: int, name: string)
    ensures VERBOSE <= level <= ASSERT ==> Priority(Level(level)) == Some(level)
    ensures !(VERBOSE <= level <= ASSERT) ==> Priority(Level(level)).None?
    ensures Priority(name).Some? ==> Level(Priority(name).value) == name
  {
  }

  /** Java's `int` wrap-around of an integer result. */
  function Wrap32(x: int): (r: Int32)
    ensures INT32_MIN <= x <= INT32_MAX ==> r == x
    ensures INT32_MAX < x <= INT32_MAX + 0x1_0000_0000 ==> r == x - 0x1_0000_0000
    ensures INT32_MIN - 0x1_0000_0000 <= x < INT32_MIN ==> r == x + 0x1_0000_0000
  {
    (x - INT32_MIN) % 0x1_0000_0000 + INT32_MIN
  }

  /** The loop of `getLastLogs`: walk the index down from `i` to `end`, putting
      each entry at the front of the deque; reading an index below 0 throws. */
  function PushFrom(logList: seq<string>, i: int, end: int, acc: seq<string>): Result<seq<string>, JavaException>
    requires -1 <= i < |logList|
    decreases i + 1
  {
    if i < end then Ok(acc)
    else if i < 0 then Err(IndexOutOfBounds)
    else PushFrom(logList, i - 1, end, [logList[i]] + acc)
  }

  /** `getLastLogs(count)` as written: clamp the count, decrement it and compute
      the loop bounds in 32-bit arithmetic, then run the loop. It throws exactly
      when the log is non-empty and `count <= size - 2^31`; whenever it returns,
      it returns what the intended `GetLastLogs` does. */
  function GetLastLogsAsWritten(logList: seq<string>, count: Int32): (r: Result<seq<string>, JavaException>)
    requires |logList| <= INT32_MAX
    ensures r.Err? <==> (|logList| > 0 && count <= |logList| - 0x8000_0000)
    ensures r.Err? ==> r.error == IndexOutOfBounds
    ensures r.Ok? ==> r.value == GetLastLogs(logList, count)
  {
    if |logList| == 0 then Ok([])
    else
      LoopAsWrittenVersusIntended(logList, count);
      RunLoop(logList, count)
  }

  /** The loop's lower bound `end = start - (count - 1)`, after `count` has been
      clamped to the size, evaluated with Java's `int` wrap-around. */
  function LoopEnd(size: int, count: Int32): Int32
    requires 1 <= size <= INT32_MAX
  {
    var count := if count > size then size else count;
    var count := Wrap32(count - 1);
    var start := size - 1;
    Wrap32(start - count)
  }

  /** The bound is the start of the newest `count` entries unless the
      arithmetic overflows, which happens exactly when `count <= size - 2^31`;
      the wrapped bound is then negative. */
  lemma LoopEndValue(size: int, count: Int32)
    requires 1 <= size <= INT32_MAX
    ensures count <= size - 0x8000_0000 ==> LoopEnd(size, count) < 0
    ensures count > size - 0x8000_0000 ==> LoopEnd(size, count) == size - Min(count, size)
  {
    var c := if count > size then size else count;
    if c == INT32_MIN {
      assert Wrap32(c - 1) == INT32_MAX;
    } else {
      assert Wrap32(c - 1) == c - 1;
    }
  }

  /** The loop collects `logList[end..i+1]` in order when `end` is a valid index
      bound, and throws when `end` is negative. */
  lemma {:induction false} PushFromCollects(logList: seq<string>, i: int, end: int, acc: seq<string>)
    requires -1 <= i < |logList|
    ensures end < 0 ==> PushFrom(logList, i, end, acc) == Err(IndexOutOfBounds)
    ensures 0 <= end <= i + 1 ==> PushFrom(logList, i, end, acc) == Ok(logList[end..i + 1] + acc)
    ensures end > i ==> PushFrom(logList, i, end, acc) == Ok(acc)
    decreases i + 1
  {
    if i < end {
      if end == i + 1 {
        assert logList[end..i + 1] + acc == acc;
      }
    } else if i >= 0 {
      PushFromCollects(logList, i - 1, end, [logList[i]] + acc);
      if 0 <= end {
        assert logList[end..i] + ([logList[i]] + acc) == logList[end..i + 1] + acc;
      }
    }
  }

  /** The loop of `getLastLogs` run from the newest index down to the
      computed bound, on a non-empty log. */
  function RunLoop(logList: seq<string>, count: Int32): Result<seq<string>, JavaException>
    requires 1 <= |logList| <= INT32_MAX
  {
    PushFrom(logList, |logList| - 1, LoopEnd(|logList|, count), [])
  }

  /** The loop agrees with the intended query exactly when
      `count > size - 2^31`; for smaller counts the bound computation overflows,
      the bound comes out negative and the loop reads index -1. */
  lemma LoopAsWrittenVersusIntended(logList: seq<string>, count: Int32)
    requires 1 <= |logList| <= INT32_MAX
    ensures RunLoop(logList, count).Err? <==> count <= |logList| - 0x8000_0000
    ensures RunLoop(logList, count).Err? ==> RunLoop(logList, count).error == IndexOutOfBounds
    ensures RunLoop(logList, count).Ok? ==> RunLoop(logList, count).value == GetLastLogs(logList, count)
  {
    var n := |logList|;
    var end := LoopEnd(n, count);
    LoopEndValue(n, count);
    PushFromCollects(logList, n - 1, end, []);
    if count <= n - 0x8000_0000 {
      assert end < 0;
    } else if count >= 1 {
      assert logList[end..n] + [] == GetLastLogs(logList, count);
    }
  }

  /** The input that shows it: one entry and `Integer.MIN_VALUE` throws, where
      the intended answer, like that of any non-positive count, is empty. */
  lemma GetLastLogsMinValueThrows()
    ensures GetLastLogsAsWritten(["entry"], INT32_MIN) == Err(IndexOutOfBounds)
    ensures GetLastLogs(["entry"], INT32_MIN) == []
  {
    LoopAsWrittenVersusIntended(["entry"], INT32_MIN);
  }
}
