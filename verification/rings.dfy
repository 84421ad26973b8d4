/** The two ring buffers behind the terminal UI, against the history of what was written to them. */
module Rings {

  /** The last cap entries, oldest first. */
  function Recent<T>(history: seq<T>, cap: nat): (r: seq<T>)
    ensures |r| == if |history| < cap then |history| else cap
  {
    if |history| <= cap then history else history[|history| - cap..]
  }

  /** Entry i of the history, while it is among the last cap, is in slot i % cap. */
  predicate Stores<T(==)>(ring: seq<T>, cap: nat, history: seq<T>)
    requires cap > 0
  {
    forall i | 0 <= i < |history| && |history| - cap <= i :: i % cap < |ring| && ring[i % cap] == history[i]
  }

  lemma NextMultiple(a: nat, b: nat, cap: nat)
    ensures a < b ==> a * cap + cap <= b * cap
  {
    if a < b {
      assert (a + 1) * cap <= b * cap;
    }
  }

  lemma RemainderOf(n: nat, cap: nat, q: nat, r: nat)
    requires r < cap && n == q * cap + r
    ensures n % cap == r
  {
    var p := n / cap;
    assert n == p * cap + n % cap;
    NextMultiple(p, q, cap);
    NextMultiple(q, p, cap);
  }

  /** The slots of cap consecutive entries differ. */
  lemma SlotsDiffer(i: nat, n: nat, cap: nat)
    requires cap > 0 && n - cap < i < n
    ensures i % cap != n % cap
  {
    var q, p := n / cap, i / cap;
    assert n == q * cap + n % cap && i == p * cap + i % cap;
    NextMultiple(p, q, cap);
    NextMultiple(q, p, cap);
  }

  /** Slot numbers from the oldest entry on: up to the end of the ring, then from its beginning. */
  lemma SlotOf(n: nat, cap: nat, k: nat)
    requires 0 < cap <= n && k < cap
    ensures (n - cap + k) % cap == if n % cap + k < cap then n % cap + k else n % cap + k - cap
  {
    var q, r := n / cap, n % cap;
    assert n == q * cap + r && q >= 1;
    assert (q - 1) * cap == q * cap - cap;
    if r + k < cap {
      RemainderOf(n - cap + k, cap, q - 1, r + k);
    } else {
      RemainderOf(n - cap + k, cap, q, r + k - cap);
    }
  }

  lemma WriteStores<T>(ring: seq<T>, cap: nat, history: seq<T>, e: T)
    requires cap > 0 && Stores(ring, cap, history) && |history| % cap < |ring|
    ensures Stores(ring[|history| % cap := e], cap, history + [e])
  {
    var n := |history|;
    forall i | 0 <= i < n && n + 1 - cap <= i
      ensures i % cap < |ring| && ring[|history| % cap := e][i % cap] == history[i]
    {
      SlotsDiffer(i, n, cap);
    }
  }

  lemma GrowStores<T>(ring: seq<T>, cap: nat, history: seq<T>, e: T)
    requires cap > 0 && Stores(ring, cap, history) && |ring| == |history| < cap
    ensures Stores(ring + [e], cap, history + [e])
  {
    forall i | 0 <= i < |history| + 1
      ensures i % cap == i
    {
      RemainderOf(i, cap, 0, i);
    }
    assert forall i | 0 <= i < |history| :: ring[i] == ring[i % cap] == history[i];
  }

  /** Main result: reading the slots from the oldest on gives the recent history in order. */
  lemma Chronological<T>(ring: seq<T>, cap: nat, history: seq<T>)
    requires cap > 0 && Stores(ring, cap, history)
    requires |ring| == cap || |ring| == |history| < cap
    ensures |history| <= cap ==> ring[..|history|] == Recent(history, cap)
    ensures |history| > cap ==>
              var start := |history| % cap; ring[start..] + ring[..start] == Recent(history, cap)
  {
    var n := |history|;
    if n <= cap {
      forall i | 0 <= i < n
        ensures ring[i] == history[i]
      {
        RemainderOf(i, cap, 0, i);
        assert ring[i % cap] == history[i];
      }
    } else {
      var start := n % cap;
      var read := ring[start..] + ring[..start];
      forall k | 0 <= k < cap
        ensures read[k] == history[n - cap + k]
      {
        SlotOf(n, cap, k);
        assert ring[(n - cap + k) % cap] == history[n - cap + k];
      }
    }
  }

  /** The live store: a ring for log entries and one for events, each growing to its capacity before it wraps. */
  class LiveStore<L(==), E(==)> {
    var logs: seq<L>
    var events: seq<E>
    const logCap: nat
    const evtCap: nat
    var logPos: nat
    var evtPos: nat
    var dirty: bool
    ghost var logHistory: seq<L>
    ghost var evtHistory: seq<E>

    ghost predicate Valid()
      reads this
    {
      && logCap > 0 && logPos == |logHistory| && |logs| == (if logPos < logCap then logPos else logCap)
      && Stores(logs, logCap, logHistory)
      && evtCap > 0 && evtPos == |evtHistory| && |events| == (if evtPos < evtCap then evtPos else evtCap)
      && Stores(events, evtCap, evtHistory)
    }

    constructor (logCap: nat, evtCap: nat)
      requires logCap > 0 && evtCap > 0
      ensures Valid() && logHistory == [] && evtHistory == [] && !dirty
      ensures this.logCap == logCap && this.evtCap == evtCap
    {
      logs, events := [], [];
      this.logCap, this.evtCap := logCap, evtCap;
      logPos, evtPos := 0, 0;
      dirty := false;
      logHistory, evtHistory := [], [];
    }

    method AppendLog(e: L)
      requires Valid()
      modifies this
      ensures Valid() && dirty
      ensures logHistory == old(logHistory) + [e] && evtHistory == old(evtHistory)
    {
      if logPos < logCap {
        GrowStores(logs, logCap, logHistory, e);
        logs := logs + [e];
      } else {
        WriteStores(logs, logCap, logHistory, e);
        logs := logs[logPos % logCap := e];
      }
      logPos := logPos + 1;
      dirty := true;
      logHistory := logHistory + [e];
    }

    method AppendEvent(e: E)
      requires Valid()
      modifies this
      ensures Valid() && dirty
      ensures evtHistory == old(evtHistory) + [e] && logHistory == old(logHistory)
    {
      if evtPos < evtCap {
        GrowStores(events, evtCap, evtHistory, e);
        events := events + [e];
      } else {
        WriteStores(events, evtCap, evtHistory, e);
        events := events[evtPos % evtCap := e];
      }
      evtPos := evtPos + 1;
      dirty := true;
      evtHistory := evtHistory + [e];
    }

    method LogSnapshot() returns (r: seq<L>)
      requires Valid()
      ensures r == Recent(logHistory, logCap)
    {
      Chronological(logs, logCap, logHistory);
      if logPos == 0 {
        return [];
      }
      if logPos <= logCap {
        return logs[..logPos];
      }
      var start := logPos % logCap;
      r := logs[start..] + logs[..start];
    }

    method EvtSnapshot() returns (r: seq<E>)
      requires Valid()
      ensures r == Recent(evtHistory, evtCap)
    {
      Chronological(events, evtCap, evtHistory);
      if evtPos == 0 {
        return [];
      }
      if evtPos <= evtCap {
        return events[..evtPos];
      }
      var start := evtPos % evtCap;
      r := events[start..] + events[..start];
    }

    method LogCount() returns (n: nat)
      requires Valid()
      ensures n == |logHistory|
    {
      n := logPos;
    }

    method EventCount() returns (n: nat)
      requires Valid()
      ensures n == |evtHistory|
    {
      n := evtPos;
    }
  }

  /** The log handler's ring, allocated in full from the start. */
  class RingCore<T(0, ==)> {
    const entries: array<T>
    var pos: nat
    ghost var history: seq<T>

    ghost predicate Valid()
      reads this, entries
    {
      entries.Length > 0 && pos == |history| && Stores(entries[..], entries.Length, history)
    }

    constructor (size: nat)
      requires size > 0
      ensures Valid() && fresh(entries) && entries.Length == size && history == []
    {
      entries := new T[size];
      pos := 0;
      history := [];
    }

    method Handle(entry: T)
      requires Valid()
      modifies this`pos, this`history, entries
      ensures Valid() && history == old(history) + [entry]
    {
      WriteStores(entries[..], entries.Length, history, entry);
      ghost var before := entries[..];
      entries[pos % entries.Length] := entry;
      assert entries[..] == before[pos % entries.Length := entry];
      pos := pos + 1;
      history := history + [entry];
    }

    method Snapshot() returns (r: seq<T>)
      requires Valid()
      ensures r == Recent(history, entries.Length)
    {
      Chronological(entries[..], entries.Length, history);
      if pos == 0 {
        return [];
      }
      if pos <= entries.Length {
        assert entries[..pos] == entries[..][..pos];
        return entries[..pos];
      }
      var start := pos % entries.Length;
      r := FromOldest(start);
      assert entries[start..] == entries[..][start..] && entries[..start] == entries[..][..start];
    }

    /** The two copies into a fresh result: from the oldest slot to the end, then from the beginning. */
    method FromOldest(start: nat) returns (r: seq<T>)
      requires start <= entries.Length
      ensures r == entries[start..] + entries[..start]
    {
      var result := new T[entries.Length];
      forall i | 0 <= i < entries.Length - start {
        result[i] := entries[start + i];
      }
      assert result[..entries.Length - start] == entries[start..];
      forall i | 0 <= i < start {
        result[entries.Length - start + i] := entries[i];
      }
      assert result[entries.Length - start..] == entries[..start];
      r := result[..];
    }

    method Count() returns (n: nat)
      requires Valid()
      ensures n == |history|
    {
      n := pos;
    }
  }
}
