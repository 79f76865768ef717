/**
 The in-memory fallback of the rate limiter: what one call does to the record of its key,
 and how many calls get through in any period of time.
 */
module MemoryThrottlers {
  import opened Wrappers
  import opened Arithmetic
  import opened Counting

  datatype Config = Config(ttl: int, limit: int, blockDuration: int)

  datatype Record = Record(hits: nat, expiresAt: int, blockedUntil: int)

  datatype Answer = Answer(totalHits: int, timeToExpire: int, isBlocked: bool, timeToBlockExpire: int)

  function Live(r: Option<Record>, now: int): Option<Record> {
    if r.Some? && r.value.expiresAt > now then r else None
  }

  /** The old record says blocked, even when its window is over. */
  predicate StillBlocked(r: Option<Record>, now: int) {
    r.Some? && r.value.blockedUntil > now
  }

  function Counted(cfg: Config, r: Option<Record>, now: int): Record {
    var e := Live(r, now).GetOr(Record(0, now + cfg.ttl, 0));
    e.(hits := e.hits + 1)
  }

  predicate OverLimit(cfg: Config, e: Record) {
    e.hits > cfg.limit && cfg.blockDuration > 0
  }

  function Next(cfg: Config, r: Option<Record>, now: int): Option<Record> {
    if StillBlocked(r, now) then Live(r, now) else
      var e := Counted(cfg, r, now);
      Some(if OverLimit(cfg, e) then e.(blockedUntil := now + cfg.blockDuration) else e)
  }

  function Reply(cfg: Config, r: Option<Record>, now: int): Answer {
    if StillBlocked(r, now) then
      Answer(cfg.limit + 1, r.value.blockedUntil - now, true, r.value.blockedUntil - now)
    else
      var e := Counted(cfg, r, now);
      Answer(e.hits, e.expiresAt - now, OverLimit(cfg, e), if OverLimit(cfg, e) then cfg.blockDuration else 0)
  }

  // -- The store as an object -------------------------------------------------

  function Lookup(m: map<string, Record>, key: string): Option<Record> {
    if key in m then Some(m[key]) else None
  }

  class MemoryStore {
    var records: map<string, Record>

    constructor ()
      ensures records == map[]
    {
      records := map[];
    }

    method Increment(key: string, cfg: Config, now: int) returns (a: Answer)
      modifies this
      ensures a == Reply(cfg, Lookup(old(records), key), now)
      ensures Lookup(records, key) == Next(cfg, Lookup(old(records), key), now)
      ensures forall k :: k != key ==> Lookup(records, k) == Lookup(old(records), k)
    {
      var existing := Lookup(records, key);
      if existing.Some? && existing.value.expiresAt <= now {
        records := records - {key};
      }
      if existing.Some? && existing.value.blockedUntil > now {
        var left := existing.value.blockedUntil - now;
        return Answer(cfg.limit + 1, left, true, left);
      }
      var entry := if key in records then records[key] else Record(0, now + cfg.ttl, 0);
      entry := entry.(hits := entry.hits + 1);
      if entry.hits > cfg.limit && cfg.blockDuration > 0 {
        entry := entry.(blockedUntil := now + cfg.blockDuration);
        records := records[key := entry];
        return Answer(entry.hits, entry.expiresAt - now, true, cfg.blockDuration);
      }
      records := records[key := entry];
      return Answer(entry.hits, entry.expiresAt - now, false, 0);
    }
  }

  // -- Histories of one key ---------------------------------------------------

  /** An answer given in window number `window`, whose count was `number` (0 if not counted). */
  datatype Logged = Logged(window: nat, number: nat, at: int, answer: Answer)

  /** `starts` are the times at which the windows so far were opened. */
  datatype History = History(record: Option<Record>, starts: seq<int>, log: seq<Logged>)

  const EMPTY := History(None, [], [])

  function Extend(cfg: Config, h: History, now: int): History {
    var opens := !StillBlocked(h.record, now) && Live(h.record, now).None?;
    var starts := if opens then h.starts + [now] else h.starts;
    var number := if StillBlocked(h.record, now) then 0 else Counted(cfg, h.record, now).hits;
    var window := if |starts| == 0 then 0 else |starts| - 1;
    History(Next(cfg, h.record, now), starts,
            h.log + [Logged(window, number, now, Reply(cfg, h.record, now))])
  }

  /** The history of calls at the given times. */
  function After(cfg: Config, times: seq<int>): History
    decreases |times|
  {
    if times == [] then EMPTY else Extend(cfg, After(cfg, times[..|times| - 1]), times[|times| - 1])
  }

  /** Readings of a clock that never runs backwards, in milliseconds since the epoch. */
  predicate Ordered(times: seq<int>) {
    && (forall i :: 0 <= i < |times| ==> 0 <= times[i])
    && (forall i, j :: 0 <= i < j < |times| ==> times[i] <= times[j])
  }

  ghost predicate Spaced(cfg: Config, starts: seq<int>) {
    forall i :: 0 < i < |starts| ==> starts[i] >= starts[i - 1] + cfg.ttl
  }

  /** The record describes the newest window, or that window is over. */
  ghost predicate RecordInPlace(cfg: Config, h: History, now: int) {
    && (h.record.Some? ==>
          && h.starts != [] && h.record.value.hits >= 1
          && (h.record.value.blockedUntil != 0 ==> h.record.value.hits > cfg.limit)
          && h.record.value.expiresAt == h.starts[|h.starts| - 1] + cfg.ttl)
    && (h.starts != [] ==> h.starts[|h.starts| - 1] <= now)
    && (h.record.None? && h.starts != [] ==> h.starts[|h.starts| - 1] + cfg.ttl <= now)
  }

  ghost predicate LogInPlace(cfg: Config, h: History) {
    forall i :: 0 <= i < |h.log| ==>
      var l := h.log[i];
      && l.window < |h.starts|
      && (!l.answer.isBlocked ==> h.starts[l.window] <= l.at < h.starts[l.window] + cfg.ttl && 1 <= l.number <= cfg.limit)
      && (l.window == |h.starts| - 1 && h.record.Some? ==>
            && l.number <= h.record.value.hits
            && (l.answer.isBlocked ==> h.record.value.hits > cfg.limit))
  }

  ghost predicate NumbersDiffer(h: History) {
    forall i, j :: 0 <= i < j < |h.log| && !h.log[i].answer.isBlocked && !h.log[j].answer.isBlocked && h.log[i].window == h.log[j].window
      ==> h.log[i].number != h.log[j].number
  }

  /** Once a window has blocked it never lets a call through again. */
  ghost predicate BlocksForGood(h: History) {
    forall i, j :: 0 <= i < j < |h.log| && h.log[i].window == h.log[j].window && h.log[i].answer.isBlocked ==> h.log[j].answer.isBlocked
  }

  ghost predicate Sound(cfg: Config, h: History, now: int) {
    && Spaced(cfg, h.starts) && RecordInPlace(cfg, h, now) && LogInPlace(cfg, h)
    && NumbersDiffer(h) && BlocksForGood(h)
    && forall i :: 0 <= i < |h.log| ==> h.log[i].at <= now
  }

  lemma ExtendRecord(cfg: Config, h: History, before: int, now: int)
    requires cfg.ttl > 0 && Spaced(cfg, h.starts) && RecordInPlace(cfg, h, before) && before <= now && 0 <= now
    ensures var h' := Extend(cfg, h, now); Spaced(cfg, h'.starts) && RecordInPlace(cfg, h', now)
  {
  }

  lemma ExtendLog(cfg: Config, h: History, before: int, now: int)
    requires cfg.ttl > 0 && cfg.blockDuration > 0 && RecordInPlace(cfg, h, before) && before <= now && 0 <= now
    requires LogInPlace(cfg, h) && forall i :: 0 <= i < |h.log| ==> h.log[i].at <= before
    requires Spaced(cfg, h.starts)
    ensures LogInPlace(cfg, Extend(cfg, h, now))
  {
    var h' := Extend(cfg, h, now);
    var n := |h.log|;
    assert h'.log[..n] == h.log && |h'.log| == n + 1;
    forall i | 0 <= i < n ensures h'.log[i] == h.log[i] {}
    assert forall i :: 0 <= i < |h.starts| ==> h'.starts[i] == h.starts[i];
    if StillBlocked(h.record, now) {
    } else if Live(h.record, now).None? {
      assert h'.log[n] == Logged(|h.starts|, 1, now, Reply(cfg, h.record, now));
    } else {
      assert h'.log[n].window == |h.starts| - 1 && h'.log[n].number == h.record.value.hits + 1;
    }
  }

  lemma ExtendPairs(cfg: Config, h: History, before: int, now: int)
    requires cfg.ttl > 0 && cfg.blockDuration > 0 && RecordInPlace(cfg, h, before) && before <= now && 0 <= now
    requires LogInPlace(cfg, h) && NumbersDiffer(h) && BlocksForGood(h)
    ensures NumbersDiffer(Extend(cfg, h, now)) && BlocksForGood(Extend(cfg, h, now))
  {
    var h' := Extend(cfg, h, now);
    var n := |h.log|;
    forall i | 0 <= i < n && h'.log[i].window == h'.log[n].window && !h'.log[n].answer.isBlocked
      ensures !h'.log[i].answer.isBlocked && h'.log[i].number != h'.log[n].number
    {
      assert h'.log[i] == h.log[i];
      assert h.log[i].window == |h.starts| - 1 && Live(h.record, now).Some?;
    }
  }

  lemma ExtendSound(cfg: Config, h: History, before: int, now: int)
    requires cfg.ttl > 0 && cfg.blockDuration > 0
    requires Sound(cfg, h, before) && before <= now && 0 <= now
    ensures Sound(cfg, Extend(cfg, h, now), now)
  {
    ExtendRecord(cfg, h, before, now);
    ExtendLog(cfg, h, before, now);
    ExtendPairs(cfg, h, before, now);
  }

  lemma Wait(cfg: Config, h: History, before: int, now: int)
    requires Sound(cfg, h, before) && before <= now
    ensures Sound(cfg, h, now)
  {
  }

  lemma {:induction false} AfterSound(cfg: Config, times: seq<int>, now: int)
    requires cfg.ttl > 0 && cfg.blockDuration > 0 && Ordered(times)
    requires times != [] ==> times[|times| - 1] <= now
    ensures Sound(cfg, After(cfg, times), now)
    decreases |times|
  {
    if times != [] {
      var n := |times| - 1;
      var h := After(cfg, times[..n]);
      AfterSound(cfg, times[..n], times[n]);
      ExtendSound(cfg, h, times[n], times[n]);
      Wait(cfg, Extend(cfg, h, times[n]), times[n], now);
    }
  }

  /** The log has one line for each call. */
  lemma {:induction false} AfterLogsEveryCall(cfg: Config, times: seq<int>)
    ensures |After(cfg, times).log| == |times|
    ensures forall i :: 0 <= i < |times| ==> After(cfg, times).log[i].at == times[i]
    decreases |times|
  {
    if times != [] {
      AfterLogsEveryCall(cfg, times[..|times| - 1]);
    }
  }

  // -- The log, explained by the times alone ----------------------------------

  /** The latest counted call among the first n. */
  function LatestCounted(log: seq<Logged>, n: nat): Option<nat>
    requires n <= |log|
  {
    if n == 0 then None else if log[n - 1].number > 0 then Some(n - 1) else LatestCounted(log, n - 1)
  }

  /** The counted calls of a window among the first n. */
  function CountedBefore(log: seq<Logged>, n: nat, window: nat): nat
    requires n <= |log|
  {
    if n == 0 then 0
    else CountedBefore(log, n - 1, window) + (if log[n - 1].number > 0 && log[n - 1].window == window then 1 else 0)
  }

  /** Call i is turned away uncounted: the latest counted call was blocked, its block is running,
      and no call has come since its window ended. */
  predicate TurnedAway(cfg: Config, h: History, i: nat)
    requires i < |h.log|
  {
    var last := LatestCounted(h.log, i);
    && last.Some? && last.value < i && h.log[last.value].answer.isBlocked
    && h.log[i].at < h.log[last.value].at + cfg.blockDuration
    && h.log[last.value].window < |h.starts|
    && forall k :: last.value < k < i ==> h.log[k].at < h.starts[h.log[last.value].window] + cfg.ttl
  }

  /** Call i falls into the window of the latest counted call, which has not ended. */
  predicate SameWindow(cfg: Config, h: History, i: nat)
    requires i < |h.log|
  {
    var last := LatestCounted(h.log, i);
    && last.Some? && last.value < i && h.log[last.value].window < |h.starts|
    && h.log[i].at < h.starts[h.log[last.value].window] + cfg.ttl
  }

  /** The answer to call i, from the times and the answers before it. */
  predicate Explained(cfg: Config, h: History, i: nat)
    requires i < |h.log|
  {
    var l, last := h.log[i], LatestCounted(h.log, i);
    if TurnedAway(cfg, h, i) then
      var left := h.log[last.value].at + cfg.blockDuration - l.at;
      l.number == 0 && l.answer == Answer(cfg.limit + 1, left, true, left)
    else
      && l.window < |h.starts|
      && (if SameWindow(cfg, h, i) then l.window == h.log[last.value].window
          else h.starts[l.window] == l.at && CountedBefore(h.log, i, l.window) == 0)
      && l.number == CountedBefore(h.log, i, l.window) + 1
      && l.answer.totalHits == l.number && l.answer.timeToExpire == h.starts[l.window] + cfg.ttl - l.at
      && l.answer.isBlocked == (l.number > cfg.limit && cfg.blockDuration > 0)
      && l.answer.timeToBlockExpire == if l.answer.isBlocked then cfg.blockDuration else 0
  }

  /** No call since the latest counted one has come after the end of the newest window. */
  predicate Unwiped(cfg: Config, h: History) {
    var last := LatestCounted(h.log, |h.log|);
    && last.Some? && h.starts != []
    && forall k :: last.value < k < |h.log| ==> h.log[k].at < h.starts[|h.starts| - 1] + cfg.ttl
  }

  /** The record as the log tells it. */
  ghost predicate RecordExplained(cfg: Config, h: History) {
    var n := |h.log|;
    var last := LatestCounted(h.log, n);
    && (last.Some? <==> h.starts != []) && (last.Some? ==> last.value < n)
    && (forall i :: 0 <= i < n && h.log[i].number > 0 ==> h.log[i].window < |h.starts|)
    && (h.record.Some? <==> Unwiped(cfg, h))
    && (last.Some? ==>
          var l := h.log[last.value];
          && l.window == |h.starts| - 1 && l.number == CountedBefore(h.log, n, l.window)
          && l.answer.isBlocked == (l.number > cfg.limit && cfg.blockDuration > 0)
          && (h.record.Some? ==>
                h.record.value == Record(l.number, h.starts[|h.starts| - 1] + cfg.ttl,
                                         if l.answer.isBlocked then l.at + cfg.blockDuration else 0)))
    && (h.record.None? && h.starts != [] ==> exists k :: 0 <= k < n && h.log[k].at >= h.starts[|h.starts| - 1] + cfg.ttl)
  }

  lemma {:induction false} LatestPrefix(log: seq<Logged>, more: seq<Logged>, n: nat, window: nat)
    requires n <= |log|
    ensures LatestCounted(log + more, n) == LatestCounted(log, n)
    ensures CountedBefore(log + more, n, window) == CountedBefore(log, n, window)
    decreases n
  {
    if n > 0 {
      LatestPrefix(log, more, n - 1, window);
    }
  }

  lemma {:induction false} LatestIsCounted(log: seq<Logged>, n: nat)
    requires n <= |log|
    ensures var last := LatestCounted(log, n);
            && (last.Some? ==> last.value < n && log[last.value].number > 0)
            && forall k :: (if last.Some? then last.value else -1) < k < n ==> log[k].number == 0
    decreases n
  {
    if n > 0 {
      LatestIsCounted(log, n - 1);
    }
  }

  lemma {:induction false} NoneInNewWindow(log: seq<Logged>, n: nat, window: nat)
    requires n <= |log| && forall i :: 0 <= i < n && log[i].number > 0 ==> log[i].window < window
    ensures CountedBefore(log, n, window) == 0
    decreases n
  {
    if n > 0 {
      NoneInNewWindow(log, n - 1, window);
    }
  }

  /** The two questions the step asks of the record, asked of the log. */
  lemma RecordSpeaks(cfg: Config, h: History, now: int)
    requires cfg.ttl > 0 && 0 <= now && RecordExplained(cfg, h)
    requires forall i :: 0 <= i < |h.log| ==> h.log[i].at <= now
    ensures var h', n := Extend(cfg, h, now), |h.log|;
            && |h'.log| == n + 1 && h'.log[..n] == h.log && h'.log[n].at == now
            && LatestCounted(h'.log, n) == LatestCounted(h.log, n)
            && (TurnedAway(cfg, h', n) <==> StillBlocked(h.record, now))
            && (!StillBlocked(h.record, now) ==> (SameWindow(cfg, h', n) <==> Live(h.record, now).Some?))
  {
    var h', n := Extend(cfg, h, now), |h.log|;
    LatestIsCounted(h.log, n);
    LatestPrefix(h.log, h'.log[n..], n, 0);
    assert h'.log == h.log + h'.log[n..];
    assert forall i :: 0 <= i < |h.starts| ==> h'.starts[i] == h.starts[i];
    forall i | 0 <= i < n ensures h'.log[i] == h.log[i] {}
  }

  /** A call of an open window, or one that opens a window, counts the calls before it. */
  lemma CountsOn(cfg: Config, h: History, now: int)
    requires cfg.ttl > 0 && 0 <= now && RecordExplained(cfg, h) && !StillBlocked(h.record, now)
    requires forall i :: 0 <= i < |h.log| ==> h.log[i].at <= now
    ensures var h', n := Extend(cfg, h, now), |h.log|;
            var w := h'.log[n].window;
            && w == |h'.starts| - 1 && h'.log[n].number == CountedBefore(h'.log, n, w) + 1
            && (Live(h.record, now).None? ==> CountedBefore(h'.log, n, w) == 0 && h'.starts[w] == now)
  {
    var h', n := Extend(cfg, h, now), |h.log|;
    LatestPrefix(h.log, h'.log[n..], n, h'.log[n].window);
    assert h'.log == h.log + h'.log[n..];
    if Live(h.record, now).None? {
      NoneInNewWindow(h.log, n, |h.starts|);
    }
  }

  /** Each call is explained. */
  lemma ExtendExplained(cfg: Config, h: History, now: int)
    requires cfg.ttl > 0 && 0 <= now && RecordExplained(cfg, h)
    requires forall i :: 0 <= i < |h.log| ==> h.log[i].at <= now
    ensures |Extend(cfg, h, now).log| == |h.log| + 1 && Explained(cfg, Extend(cfg, h, now), |h.log|)
  {
    var h', n := Extend(cfg, h, now), |h.log|;
    RecordSpeaks(cfg, h, now);
    LatestIsCounted(h.log, n);
    if !StillBlocked(h.record, now) {
      CountsOn(cfg, h, now);
    }
  }

  /** And so is the record it leaves: that of a call turned away, */
  lemma RecordStaysBlocked(cfg: Config, h: History, now: int)
    requires cfg.ttl > 0 && 0 <= now && RecordExplained(cfg, h) && StillBlocked(h.record, now)
    requires forall i :: 0 <= i < |h.log| ==> h.log[i].at <= now
    ensures RecordExplained(cfg, Extend(cfg, h, now))
  {
    var h', n := Extend(cfg, h, now), |h.log|;
    RecordSpeaks(cfg, h, now);
    LatestIsCounted(h.log, n);
    forall i | 0 <= i < n ensures h'.log[i] == h.log[i] {}
    LatestPrefix(h.log, h'.log[n..], n, |h.starts| - 1);
    assert h'.log == h.log + h'.log[n..];
    assert h'.starts == h.starts && h'.log[n].number == 0;
    assert LatestCounted(h'.log, n + 1) == LatestCounted(h.log, n);
  }

  /** and that of a counted call. */
  lemma RecordStaysCounted(cfg: Config, h: History, now: int)
    requires cfg.ttl > 0 && 0 <= now && RecordExplained(cfg, h) && !StillBlocked(h.record, now)
    requires forall i :: 0 <= i < |h.log| ==> h.log[i].at <= now
    ensures RecordExplained(cfg, Extend(cfg, h, now))
  {
    var h', n := Extend(cfg, h, now), |h.log|;
    CountsOn(cfg, h, now);
    assert h'.log == h.log + h'.log[n..];
    forall i | 0 <= i < n ensures h'.log[i] == h.log[i] {}
    assert LatestCounted(h'.log, n + 1) == Some(n);
    assert Unwiped(cfg, h');
    CountedRecord(cfg, h, now);
  }

  lemma CountedRecord(cfg: Config, h: History, now: int)
    requires cfg.ttl > 0 && RecordExplained(cfg, h) && !StillBlocked(h.record, now)
    ensures var h', n := Extend(cfg, h, now), |h.log|;
            var l := h'.log[n];
            && h'.starts != [] && l.answer.isBlocked == (l.number > cfg.limit && cfg.blockDuration > 0)
            && h'.record == Some(Record(l.number, h'.starts[|h'.starts| - 1] + cfg.ttl,
                                        if l.answer.isBlocked then l.at + cfg.blockDuration else 0))
  {
  }

  /** Later calls change nothing about the explanation of earlier ones. */
  lemma StaysExplained(cfg: Config, h: History, now: int, i: nat)
    requires i < |h.log| && Explained(cfg, h, i) && RecordExplained(cfg, h)
    ensures i < |Extend(cfg, h, now).log| && Explained(cfg, Extend(cfg, h, now), i)
    ensures Extend(cfg, h, now).log[i] == h.log[i]
  {
    var h' := Extend(cfg, h, now);
    assert h'.log == h.log + h'.log[|h.log|..];
    LatestPrefix(h.log, h'.log[|h.log|..], i, h.log[i].window);
    LatestIsCounted(h.log, i);
    assert forall k :: 0 <= k < |h.log| ==> h'.log[k] == h.log[k];
    assert forall k :: 0 <= k < |h.starts| ==> h'.starts[k] == h.starts[k];
  }

  lemma {:induction false} AllExplained(cfg: Config, times: seq<int>)
    requires cfg.ttl > 0 && Ordered(times)
    ensures |After(cfg, times).log| == |times| && RecordExplained(cfg, After(cfg, times))
    ensures forall i :: 0 <= i < |times| ==> Explained(cfg, After(cfg, times), i)
    decreases |times|
  {
    AfterLogsEveryCall(cfg, times);
    if times != [] {
      var n := |times| - 1;
      var h := After(cfg, times[..n]);
      AllExplained(cfg, times[..n]);
      AfterLogsEveryCall(cfg, times[..n]);
      ExtendExplained(cfg, h, times[n]);
      if StillBlocked(h.record, times[n]) {
        RecordStaysBlocked(cfg, h, times[n]);
      } else {
        RecordStaysCounted(cfg, h, times[n]);
      }
      forall i | 0 <= i < n ensures Explained(cfg, After(cfg, times), i) {
        StaysExplained(cfg, h, times[n], i);
      }
    }
  }

  /** For every sequence of calls the times alone decide every answer. A call is turned away
      uncounted exactly while the block of the latest counted call runs and nobody has called
      since its window ended. Any other call joins the window of the latest counted call, or
      opens one when that has ended; its number is one more than the calls counted in the window
      before it, and it is blocked exactly when that exceeds the limit. */
  lemma LogExactly(cfg: Config, times: seq<int>, i: nat)
    requires cfg.ttl > 0 && Ordered(times) && i < |times|
    ensures var h := After(cfg, times);
            && |h.log| == |times| && h.log[i].at == times[i] && Explained(cfg, h, i)
  {
    AllExplained(cfg, times);
    AfterLogsEveryCall(cfg, times);
  }

  /** So nobody is blocked too early: a call is blocked exactly when at least `limit` calls have
      been counted before it in the window it meets. */
  lemma BlockedExactly(cfg: Config, times: seq<int>, i: nat)
    requires cfg.ttl > 0 && cfg.blockDuration > 0 && Ordered(times) && i < |times|
    ensures var h := After(cfg, times);
            && |h.log| == |times|
            && var met := if TurnedAway(cfg, h, i) then h.log[LatestCounted(h.log, i).value].window else h.log[i].window;
               h.log[i].answer.isBlocked <==> CountedBefore(h.log, i, met) >= cfg.limit
  {
    AllExplained(cfg, times);
    var h := After(cfg, times);
    assert Explained(cfg, h, i);
    if TurnedAway(cfg, h, i) {
      var j := LatestCounted(h.log, i).value;
      assert Explained(cfg, h, j);
      LatestIsCounted(h.log, i);
      CountedExplained(cfg, h, j);
      CountedGrows(h.log, j, i, h.log[j].window);
    }
  }

  lemma CountedExplained(cfg: Config, h: History, j: nat)
    requires j < |h.log| && Explained(cfg, h, j) && h.log[j].number > 0
    ensures h.log[j].number == CountedBefore(h.log, j, h.log[j].window) + 1
    ensures h.log[j].answer.isBlocked == (h.log[j].number > cfg.limit && cfg.blockDuration > 0)
  {
  }

  lemma {:induction false} CountedGrows(log: seq<Logged>, j: nat, n: nat, window: nat)
    requires j < n <= |log|
    ensures CountedBefore(log, n, window) >= CountedBefore(log, j, window) + (if log[j].number > 0 && log[j].window == window then 1 else 0)
    decreases n
  {
    if n > j + 1 {
      CountedGrows(log, j, n - 1, window);
    }
  }

  // -- How many calls get through ---------------------------------------------

  /** The calls let through in the closed interval from `lo` to `hi`. */
  function Through(log: seq<Logged>, lo: int, hi: int): set<nat> {
    set i: nat | i < |log| && !log[i].answer.isBlocked && lo <= log[i].at <= hi
  }

  function WindowOf(log: seq<Logged>): map<nat, int> {
    map i: nat | i < |log| :: log[i].window
  }

  function NumberOf(log: seq<Logged>): map<nat, int> {
    map i: nat | i < |log| :: log[i].number
  }

  lemma WindowLimit(cfg: Config, h: History, now: int, s: set<nat>, w: int)
    requires Sound(cfg, h, now) && forall i :: i in s ==> i < |h.log| && !h.log[i].answer.isBlocked
    ensures |Slice(s, WindowOf(h.log), w)| <= Max(0, cfg.limit)
  {
    DistinctNumbers(Slice(s, WindowOf(h.log), w), NumberOf(h.log), Max(0, cfg.limit));
  }

  lemma {:induction false} SpacedApart(cfg: Config, starts: seq<int>, i: nat, j: nat)
    requires Spaced(cfg, starts) && i <= j < |starts|
    ensures starts[j] - starts[i] >= cfg.ttl * (j - i)
    decreases j
  {
    if i < j {
      SpacedApart(cfg, starts, i, j - 1);
      assert cfg.ttl * (j - i) == cfg.ttl * (j - 1 - i) + cfg.ttl;
    }
  }

  /** Window starts are at least `ttl` apart, each window lets at most `limit` calls through, and
      no call gets through a window that has already blocked one. */
  lemma WindowsOfHistory(cfg: Config, times: seq<int>, w: int)
    requires cfg.ttl > 0 && cfg.blockDuration > 0 && Ordered(times)
    ensures var h := After(cfg, times);
            && Spaced(cfg, h.starts) && BlocksForGood(h)
            && |set i: nat | i < |h.log| && !h.log[i].answer.isBlocked && h.log[i].window == w| <= Max(0, cfg.limit)
  {
    var h := After(cfg, times);
    var now := if times == [] then 0 else times[|times| - 1];
    AfterSound(cfg, times, now);
    var s := set i: nat | i < |h.log| && !h.log[i].answer.isBlocked;
    WindowLimit(cfg, h, now, s, w);
    assert Slice(s, WindowOf(h.log), w) == set i: nat | i < |h.log| && !h.log[i].answer.isBlocked && h.log[i].window == w;
  }

  lemma WindowsClose(cfg: Config, h: History, now: int, lo: int, period: nat, c: nat, d: nat)
    requires cfg.ttl > 0 && Sound(cfg, h, now)
    requires c in Through(h.log, lo, lo + period) && d in Through(h.log, lo, lo + period)
    ensures h.log[d].window - h.log[c].window <= CeilDiv(period, cfg.ttl)
  {
    var i: int, j: int := h.log[c].window, h.log[d].window;
    if i <= j {
      SpacedApart(cfg, h.starts, i, j);
      assert cfg.ttl * (j - i - 1) == cfg.ttl * (j - i) - cfg.ttl;
      CeilDivBounds(period, cfg.ttl, j - i);
    } else {
      CeilDivNonNegative(period, cfg.ttl);
    }
  }

  /** Any closed interval of length `period` sees at most limit * (ceil(period / ttl) + 1) calls
      get through, for every sequence of calls; the log has one line for each call. */
  lemma SlidingBound(cfg: Config, times: seq<int>, lo: int, period: nat)
    requires cfg.ttl > 0 && cfg.blockDuration > 0 && Ordered(times)
    ensures var log := After(cfg, times).log;
            && |log| == |times| && (forall i :: 0 <= i < |times| ==> log[i].at == times[i])
            && |Through(log, lo, lo + period)| <= Max(0, cfg.limit) * (CeilDiv(period, cfg.ttl) + 1)
  {
    var h := After(cfg, times);
    AfterLogsEveryCall(cfg, times);
    var now := if times == [] then 0 else times[|times| - 1];
    AfterSound(cfg, times, now);
    SlidingBoundOf(cfg, h, now, lo, period);
  }

  lemma SlidingBoundOf(cfg: Config, h: History, now: int, lo: int, period: nat)
    requires cfg.ttl > 0 && Sound(cfg, h, now)
    ensures |Through(h.log, lo, lo + period)| <= Max(0, cfg.limit) * (CeilDiv(period, cfg.ttl) + 1)
  {
    var s, spread := Through(h.log, lo, lo + period), CeilDiv(period, cfg.ttl);
    CeilDivNonNegative(period, cfg.ttl);
    forall w ensures |Slice(s, WindowOf(h.log), w)| <= Max(0, cfg.limit) {
      WindowLimit(cfg, h, now, s, w);
    }
    forall c, d | c in s && d in s ensures WindowOf(h.log)[d] - WindowOf(h.log)[c] <= spread {
      WindowsClose(cfg, h, now, lo, period, c, d);
    }
    SpreadBound(s, WindowOf(h.log), Max(0, cfg.limit), spread);
  }

  // -- A block that outlasts its window ---------------------------------------

  predicate AllBlocked(cfg: Config, r: Option<Record>, times: seq<int>)
    decreases |times|
  {
    times == [] || (Reply(cfg, r, times[0]).isBlocked && AllBlocked(cfg, Next(cfg, r, times[0]), times[1..]))
  }

  /** The record right after a call at `t` was blocked for exceeding the limit. */
  predicate JustBlocked(cfg: Config, r: Record, t: int) {
    r.hits > cfg.limit && r.blockedUntil == t + cfg.blockDuration && t < r.expiresAt
  }

  /** Every later sequence of calls within the block duration is rejected throughout. */
  ghost predicate BlockHonoured(cfg: Config, r: Record, t: int) {
    forall times: seq<int> {:trigger AllBlocked(cfg, Some(r), times)} ::
      (Ordered(times) && forall i :: 0 <= i < |times| ==> t <= times[i] < t + cfg.blockDuration)
      ==> AllBlocked(cfg, Some(r), times)
  }

  lemma {:induction false} BlockedInside(cfg: Config, r: Record, times: seq<int>)
    requires forall i :: 0 <= i < |times| ==> times[i] < r.blockedUntil <= r.expiresAt
    ensures AllBlocked(cfg, Some(r), times)
    decreases |times|
  {
    if times != [] {
      assert Next(cfg, Some(r), times[0]) == Some(r);
      BlockedInside(cfg, r, times[1..]);
    }
  }

  lemma {:induction false} NoLimitNoPassage(cfg: Config, r: Option<Record>, times: seq<int>)
    requires cfg.limit < 1 && cfg.blockDuration > 0
    ensures AllBlocked(cfg, r, times)
    decreases |times|
  {
    if times != [] {
      NoLimitNoPassage(cfg, Next(cfg, r, times[0]), times[1..]);
    }
  }

  /** A block is honoured for its whole duration exactly when it ends within its window (or
      nothing is ever let through): otherwise the first call after the window is rejected and
      wipes the record, and the second gets through. */
  lemma BlockHonouredExactly(cfg: Config, r: Record, t: int)
    requires cfg.ttl > 0 && cfg.blockDuration > 0 && 0 <= t && JustBlocked(cfg, r, t)
    ensures BlockHonoured(cfg, r, t) <==> t + cfg.blockDuration <= r.expiresAt || cfg.limit < 1
  {
    if t + cfg.blockDuration <= r.expiresAt {
      forall times: seq<int> | forall i :: 0 <= i < |times| ==> t <= times[i] < t + cfg.blockDuration
        ensures AllBlocked(cfg, Some(r), times)
      {
        BlockedInside(cfg, r, times);
      }
    } else if cfg.limit < 1 {
      forall times: seq<int> ensures AllBlocked(cfg, Some(r), times) {
        NoLimitNoPassage(cfg, Some(r), times);
      }
    } else {
      var e := r.expiresAt;
      assert Next(cfg, Some(r), e) == None;
      assert !Reply(cfg, None, e).isBlocked;
      assert [e, e][1..] == [e];
      assert !AllBlocked(cfg, None, [e]);
      assert !AllBlocked(cfg, Some(r), [e, e]);
    }
  }
}
