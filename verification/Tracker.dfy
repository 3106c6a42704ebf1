// The metrics tracker object of internal/metrics/tracker.go: a ring buffer of latencies
// overwritten in place, its copy-out in order of recording, and the snapshot statistics.

module TrackerClass {
  import opened Percentiles

  /** The last `n` elements of a log, or all of it. */
  function LastUpTo(log: seq<int>, n: nat): seq<int> {
    if |log| <= n then log else log[|log| - n..]
  }

  /** They end the log, in its order, and are as many as fit. */
  lemma LastUpToMeaning(log: seq<int>, n: nat)
    ensures var recent := LastUpTo(log, n);
            && |recent| == (if |log| <= n then |log| else n)
            && forall i :: 0 <= i < |recent| ==> recent[i] == log[|log| - |recent| + i]
  {
  }

  const MILLISECOND := 1_000_000

  datatype Snapshot = Snapshot(avgMs: int, p50Ms: int, p95Ms: int, p99Ms: int)

  lemma RingStep(i: int, n: int)
    requires 0 <= i < n
    ensures (i + 1) % n == if i + 1 == n then 0 else i + 1
  {
  }

  method AverageOf(durations: array<int>) returns (avg: int)
    ensures avg == Average(durations[..])
  {
    if durations.Length == 0 {
      return 0;
    }
    var total := 0;
    for k := 0 to durations.Length
      invariant total == Sum(durations[..k])
    {
      total := total + durations[k];
      assert durations[..k + 1][..k] == durations[..k];
    }
    assert durations[..] == durations[..durations.Length];
    avg := Quotient(total, durations.Length);
  }

  class Tracker {
    var latencyBuffer: array<int>
    var latencyIndex: int
    var latencyCount: int
    ghost var log: seq<int>   // every latency recorded since the last Reset

    /** The ring holds the end of the log: from the start until it is full, then from the index round. */
    ghost predicate Valid()
      reads this, latencyBuffer
    {
      var n := latencyBuffer.Length;
      && n > 0
      && 0 <= latencyIndex < n
      && if |log| < n then
           && latencyCount == |log| && latencyIndex == |log|
           && forall i :: 0 <= i < |log| ==> latencyBuffer[i] == log[i]
         else
           && latencyCount == n
           && (forall i :: latencyIndex <= i < n ==> latencyBuffer[i] == log[|log| - n + i - latencyIndex])
           && (forall i :: 0 <= i < latencyIndex ==> latencyBuffer[i] == log[|log| - latencyIndex + i])
    }

    constructor (capacity: nat)
      requires capacity > 0
      ensures Valid() && fresh(latencyBuffer)
      ensures log == [] && latencyBuffer.Length == capacity
    {
      latencyBuffer := new int[capacity];
      latencyIndex, latencyCount, log := 0, 0, [];
    }

    method RecordLatency(latency: int)
      requires Valid()
      modifies this, latencyBuffer
      ensures Valid() && latencyBuffer == old(latencyBuffer)
      ensures log == old(log) + [latency]
    {
      RingStep(latencyIndex, latencyBuffer.Length);
      latencyBuffer[latencyIndex] := latency;
      latencyIndex := (latencyIndex + 1) % latencyBuffer.Length;
      if latencyCount < latencyBuffer.Length {
        latencyCount := latencyCount + 1;
      }
      log := log + [latency];
    }

    method Reset()
      requires Valid()
      modifies this
      ensures Valid() && latencyBuffer == old(latencyBuffer)
      ensures log == []
    {
      latencyIndex := 0;
      latencyCount := 0;
      log := [];
    }

    /** The copy a snapshot works on: the last latencies the ring has room for, oldest first. */
    method CopyOut() returns (latencyCopy: array<int>)
      requires Valid()
      ensures fresh(latencyCopy)
      ensures latencyCopy[..] == LastUpTo(log, latencyBuffer.Length)
    {
      var count := latencyCount;
      latencyCopy := new int[count];
      if count > 0 {
        if count < latencyBuffer.Length {
          forall i | 0 <= i < count {
            latencyCopy[i] := latencyBuffer[i];
          }
        } else {
          var firstPart := latencyBuffer.Length - latencyIndex;
          forall i | 0 <= i < firstPart {
            latencyCopy[i] := latencyBuffer[latencyIndex + i];
          }
          forall i | firstPart <= i < count {
            latencyCopy[i] := latencyBuffer[i - firstPart];
          }
        }
      }
    }

    /** Statistics over the copy: ordered percentiles, each a recorded latency cut to milliseconds. */
    method TakeSnapshot() returns (s: Snapshot)
      requires Valid()
      ensures var recent := LastUpTo(log, latencyBuffer.Length);
              && s == Snapshot(Quotient(Average(recent), 1_000_000),
                               Quotient(Percentile(recent, 50), 1_000_000),
                               Quotient(Percentile(recent, 95), 1_000_000),
                               Quotient(Percentile(recent, 99), 1_000_000))
      ensures s.p50Ms <= s.p95Ms <= s.p99Ms
      ensures log == [] ==> s == Snapshot(0, 0, 0, 0)
    {
      var latencyCopy := CopyOut();
      s := Snapshot(0, 0, 0, 0);
      if latencyCopy.Length > 0 {
        var avg := AverageOf(latencyCopy);
        s := Snapshot(Quotient(avg, MILLISECOND),
                      Quotient(Percentile(latencyCopy[..], 50), MILLISECOND),
                      Quotient(Percentile(latencyCopy[..], 95), MILLISECOND),
                      Quotient(Percentile(latencyCopy[..], 99), MILLISECOND));
      }
      PercentilesOrdered(LastUpTo(log, latencyBuffer.Length), 50, 95);
      PercentilesOrdered(LastUpTo(log, latencyBuffer.Length), 95, 99);
    }
  }
}
