/** The in-memory log buffer shared by the extension's pages
  * (`src/shared/utils/logger.ts`): a bounded list of entries and a set of
  * listeners that are handed the whole list after every change. */
module Logging {
  import opened Wrappers

  datatype LogLevel = Info | Warn | Error | Success | Debug

  /** The optional `data` argument: absent (or `null`), a primitive value shown
    * as text, or an object whose `contentExcerpt` and `excerpt` fields matter here. */
  datatype LogData =
    | NoData
    | Primitive(text: string)
    | Object(contentExcerpt: Option<string>, excerpt: Option<string>)

  datatype LogEntry = LogEntry(
    id: string,
    timestamp: int,
    level: LogLevel,
    message: string,
    data: LogData,
    excerpt: Option<string>)

  /** A registered listener, known by its identity. */
  datatype ListenerId = ListenerId(key: nat)

  /** One call of a listener with the buffer it was handed. */
  datatype Delivery = Delivery(listener: ListenerId, logs: seq<LogEntry>)

  const MaxLogs: nat := 100

  /** `s.slice(-n)` for a positive `n`: the last `n` elements, or all of them. */
  function Newest<T>(s: seq<T>, n: nat): (r: seq<T>)
    ensures |r| == if |s| <= n then |s| else n
    ensures forall i :: 0 <= i < |r| ==> r[i] == s[|s| - |r| + i]
  {
    if |s| <= n then s else s[|s| - n..]
  }

  /** The excerpt `success` records: the object's `contentExcerpt`, else its
    * `excerpt`, else the empty string; the empty string for anything but an object. */
  function SuccessExcerpt(data: LogData): (excerpt: string)
    ensures data.Object? && data.contentExcerpt.Some? && data.contentExcerpt.value != "" ==> excerpt == data.contentExcerpt.value
    ensures data.Object? && (data.contentExcerpt.None? || data.contentExcerpt.value == "") && data.excerpt.Some? ==> excerpt == data.excerpt.value
    ensures data.Object? && (data.contentExcerpt.None? || data.contentExcerpt.value == "") && data.excerpt.None? ==> excerpt == ""
    ensures !data.Object? ==> excerpt == ""
  {
    match data
    case Object(contentExcerpt, excerpt) =>
      if contentExcerpt.Some? && contentExcerpt.value != "" then contentExcerpt.value
      else if excerpt.Some? && excerpt.value != "" then excerpt.value
      else ""
    case _ => ""
  }

  /** The calls `notify` makes: every listener, in registration order, with `logs`. */
  function Broadcast(listeners: seq<ListenerId>, logs: seq<LogEntry>): (calls: seq<Delivery>)
    ensures |calls| == |listeners|
    ensures forall i :: 0 <= i < |calls| ==> calls[i] == Delivery(listeners[i], logs)
  {
    seq(|listeners|, i requires 0 <= i < |listeners| => Delivery(listeners[i], logs))
  }

  predicate NoDuplicates<T(==)>(s: seq<T>)
  {
    forall i, j :: 0 <= i < j < |s| ==> s[i] != s[j]
  }

  /** `s` without the element `x`. */
  function Without(s: seq<ListenerId>, x: ListenerId): (r: seq<ListenerId>)
    ensures x !in r
    ensures forall y :: y in r <==> y in s && y != x
    ensures |r| <= |s|
  {
    if s == [] then []
    else if s[0] == x then Without(s[1..], x)
    else [s[0]] + Without(s[1..], x)
  }

  lemma {:induction false} WithoutKeepsDistinct(s: seq<ListenerId>, x: ListenerId)
    requires NoDuplicates(s)
    ensures NoDuplicates(Without(s, x))
    ensures x in s ==> |Without(s, x)| == |s| - 1
    ensures x !in s ==> Without(s, x) == s
  {
    if s != [] {
      assert NoDuplicates(s[1..]);
      WithoutKeepsDistinct(s[1..], x);
      if s[0] == x {
        assert x !in s[1..];
      } else {
        assert s[0] !in Without(s[1..], x);
      }
    }
  }

  class Logger {
    var logs: seq<LogEntry>
    /** The listener set, in the order the listeners were first added. */
    var listeners: seq<ListenerId>
    /** Every listener call so far, oldest first. */
    var delivered: seq<Delivery>

    ghost predicate Valid()
      reads this
    {
      NoDuplicates(listeners)
    }

    constructor()
      ensures Valid()
      ensures logs == [] && listeners == [] && delivered == []
    {
      logs := [];
      listeners := [];
      delivered := [];
    }

    /** `notify`: hand the current buffer to every listener. */
    method Notify()
      modifies this
      ensures logs == old(logs) && listeners == old(listeners)
      ensures delivered == old(delivered) + Broadcast(listeners, logs)
    {
      ghost var start := delivered;
      for i := 0 to |listeners|
        invariant logs == old(logs) && listeners == old(listeners)
        invariant delivered == start + Broadcast(listeners[..i], logs)
      {
        assert Broadcast(listeners[..i + 1], logs) == Broadcast(listeners[..i], logs) + [Delivery(listeners[i], logs)];
        delivered := delivered + [Delivery(listeners[i], logs)];
      }
      assert listeners[..|listeners|] == listeners;
    }

    /** `addLog`, with the entry's random id and its clock reading as parameters. */
    method AddLog(level: LogLevel, message: string, data: LogData, excerpt: Option<string>, id: string, timestamp: int)
      requires Valid()
      modifies this
      ensures Valid()
      ensures logs == Newest(old(logs) + [LogEntry(id, timestamp, level, message, data, excerpt)], MaxLogs)
      ensures listeners == old(listeners)
      ensures delivered == old(delivered) + Broadcast(listeners, logs)
    {
      var entry := LogEntry(id, timestamp, level, message, data, excerpt);
      logs := Newest(logs + [entry], MaxLogs);
      Notify();
    }

    method Debug(message: string, data: LogData, id: string, timestamp: int)
      requires Valid()
      modifies this
      ensures Valid()
      ensures logs == Newest(old(logs) + [LogEntry(id, timestamp, LogLevel.Debug, message, data, None)], MaxLogs)
      ensures listeners == old(listeners)
      ensures delivered == old(delivered) + Broadcast(listeners, logs)
    {
      AddLog(LogLevel.Debug, message, data, None, id, timestamp);
    }

    method Info(message: string, data: LogData, id: string, timestamp: int)
      requires Valid()
      modifies this
      ensures Valid()
      ensures logs == Newest(old(logs) + [LogEntry(id, timestamp, LogLevel.Info, message, data, None)], MaxLogs)
      ensures listeners == old(listeners)
      ensures delivered == old(delivered) + Broadcast(listeners, logs)
    {
      AddLog(LogLevel.Info, message, data, None, id, timestamp);
    }

    method Warn(message: string, data: LogData, id: string, timestamp: int)
      requires Valid()
      modifies this
      ensures Valid()
      ensures logs == Newest(old(logs) + [LogEntry(id, timestamp, LogLevel.Warn, message, data, None)], MaxLogs)
      ensures listeners == old(listeners)
      ensures delivered == old(delivered) + Broadcast(listeners, logs)
    {
      AddLog(LogLevel.Warn, message, data, None, id, timestamp);
    }

    method Error(message: string, data: LogData, id: string, timestamp: int)
      requires Valid()
      modifies this
      ensures Valid()
      ensures logs == Newest(old(logs) + [LogEntry(id, timestamp, LogLevel.Error, message, data, None)], MaxLogs)
      ensures listeners == old(listeners)
      ensures delivered == old(delivered) + Broadcast(listeners, logs)
    {
      AddLog(LogLevel.Error, message, data, None, id, timestamp);
    }

    /** `success` also records the excerpt taken from the data. */
    method Success(message: string, data: LogData, id: string, timestamp: int)
      requires Valid()
      modifies this
      ensures Valid()
      ensures logs == Newest(old(logs) + [LogEntry(id, timestamp, LogLevel.Success, message, data, Some(SuccessExcerpt(data)))], MaxLogs)
      ensures listeners == old(listeners)
      ensures delivered == old(delivered) + Broadcast(listeners, logs)
    {
      var excerpt := "";
      if data.Object? {
        if data.contentExcerpt.Some? && data.contentExcerpt.value != "" {
          excerpt := data.contentExcerpt.value;
        } else if data.excerpt.Some? && data.excerpt.value != "" {
          excerpt := data.excerpt.value;
        }
      }
      AddLog(LogLevel.Success, message, data, Some(excerpt), id, timestamp);
    }

    /** `syncLogs`: the buffer is replaced as given, with no cap. */
    method SyncLogs(newLogs: seq<LogEntry>)
      requires Valid()
      modifies this
      ensures Valid()
      ensures logs == newLogs && listeners == old(listeners)
      ensures delivered == old(delivered) + Broadcast(listeners, newLogs)
    {
      logs := newLogs;
      Notify();
    }

    /** `subscribe`: register the listener (a no-op if it is registered already)
      * and call it once with the current buffer. */
    method Subscribe(listener: ListenerId)
      requires Valid()
      modifies this
      ensures Valid()
      ensures logs == old(logs)
      ensures listeners == if listener in old(listeners) then old(listeners) else old(listeners) + [listener]
      ensures delivered == old(delivered) + [Delivery(listener, logs)]
    {
      if listener !in listeners {
        listeners := listeners + [listener];
      }
      delivered := delivered + [Delivery(listener, logs)];
    }

    /** The remover `subscribe` returns: delete this listener only, reporting whether it was registered. */
    method Unsubscribe(listener: ListenerId) returns (removed: bool)
      requires Valid()
      modifies this
      ensures Valid()
      ensures removed == (listener in old(listeners))
      ensures listeners == Without(old(listeners), listener)
      ensures logs == old(logs) && delivered == old(delivered)
    {
      removed := listener in listeners;
      WithoutKeepsDistinct(listeners, listener);
      listeners := Without(listeners, listener);
    }

    /** `clear`: empty the buffer and notify. */
    method Clear()
      requires Valid()
      modifies this
      ensures Valid()
      ensures logs == [] && listeners == old(listeners)
      ensures delivered == old(delivered) + Broadcast(listeners, [])
    {
      logs := [];
      Notify();
    }

    method GetLogs() returns (current: seq<LogEntry>)
      ensures current == logs
    {
      current := logs;
    }
  }

  /** After adding one entry the buffer holds min(old + 1, 100) entries and the new one is last. */
  lemma AppendBounded<T>(old_logs: seq<T>, entry: T)
    ensures var logs := Newest(old_logs + [entry], MaxLogs);
      |logs| == (if |old_logs| + 1 <= MaxLogs then |old_logs| + 1 else MaxLogs)
      && logs[|logs| - 1] == entry
  {
  }

  /** On overflow the oldest entries go first: the buffer is what remains after
    * dropping a prefix, the surviving entries keeping their order. */
  lemma OverflowDropsOldest<T>(old_logs: seq<T>, entry: T)
    ensures var all := old_logs + [entry];
      var logs := Newest(all, MaxLogs);
      all == all[..|all| - |logs|] + logs
  {
    var all := old_logs + [entry];
    var logs := Newest(all, MaxLogs);
    assert all == all[..|all| - |logs|] + all[|all| - |logs|..];
  }

  /** A buffer that is full stays full: the oldest entry leaves as the new one arrives. */
  lemma FullBufferShifts<T>(old_logs: seq<T>, entry: T)
    requires |old_logs| == MaxLogs
    ensures Newest(old_logs + [entry], MaxLogs) == old_logs[1..] + [entry]
  {
    var all := old_logs + [entry];
    assert all[|all| - MaxLogs..] == old_logs[1..] + [entry];
  }

  /** A listener removed with its remover is no longer called by later notifications,
    * and every other listener still is. */
  lemma UnsubscribeOnlyRemovesOne(listeners: seq<ListenerId>, listener: ListenerId, logs: seq<LogEntry>)
    ensures var calls := Broadcast(Without(listeners, listener), logs);
      (forall d :: d in calls ==> d.listener != listener)
      && (forall l :: l in listeners && l != listener ==> Delivery(l, logs) in calls)
  {
    var rest := Without(listeners, listener);
    var calls := Broadcast(rest, logs);
    forall l | l in listeners && l != listener ensures Delivery(l, logs) in calls {
      var i :| 0 <= i < |rest| && rest[i] == l;
      assert calls[i] == Delivery(l, logs);
    }
  }
}
