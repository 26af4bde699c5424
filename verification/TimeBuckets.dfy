/** The pruned list of mark times behind the dependency health check
    (witchcraft/internal/dependencyhealth/counter.go). */
module TimeBuckets {
  /** A clock that never goes back. */
  class Clock {
    var time: int

    constructor ()
    {
    }

    method Now() returns (t: int)
      modifies this
      ensures old(time) <= time == t
    {
      t :| time <= t;
      time := t;
    }
  }

  /** The number of marks strictly after a horizon. */
  function CountAfter(marks: seq<int>, horizon: int): nat {
    if marks == [] then 0 else (if marks[0] > horizon then 1 else 0) + CountAfter(marks[1..], horizon)
  }

  predicate Ascending(s: seq<int>) {
    forall i, j :: 0 <= i < j < |s| ==> s[i] <= s[j]
  }

  /** When the marks before position k are at or before the horizon and the others after it, the
      others are the ones counted. */
  lemma {:induction false} CountOfSuffix(marks: seq<int>, k: nat, horizon: int)
    requires k <= |marks|
    requires forall i :: 0 <= i < k ==> marks[i] <= horizon
    requires forall i :: k <= i < |marks| ==> marks[i] > horizon
    ensures CountAfter(marks, horizon) == |marks| - k
    decreases |marks|
  {
    if marks != [] {
      CountOfSuffix(marks[1..], if k == 0 then 0 else k - 1, horizon);
    }
  }

  /** No mark leaves the window between the two instants. */
  predicate Steady(marks: seq<int>, window: int, t0: int, t1: int) {
    forall i :: 0 <= i < |marks| ==> !(t0 - window < marks[i] <= t1 - window)
  }

  /** While no mark leaves the window, the count does not depend on the instant. */
  lemma {:induction false} SteadyCount(marks: seq<int>, window: int, t0: int, t: int, t1: int)
    requires Steady(marks, window, t0, t1) && t0 <= t <= t1
    ensures CountAfter(marks, t - window) == CountAfter(marks, t0 - window)
    decreases |marks|
  {
    if marks != [] {
      SteadyCount(marks[1..], window, t0, t, t1);
    }
  }

  /** A later horizon counts fewer marks. */
  lemma {:induction false} CountShrinks(marks: seq<int>, early: int, late: int)
    requires early <= late
    ensures CountAfter(marks, late) <= CountAfter(marks, early)
    decreases |marks|
  {
    if marks != [] {
      CountShrinks(marks[1..], early, late);
    }
  }

  lemma {:induction false} CountAppend(marks: seq<int>, mark: int, horizon: int)
    ensures CountAfter(marks + [mark], horizon) == CountAfter(marks, horizon) + if mark > horizon then 1 else 0
    decreases |marks|
  {
    if marks != [] {
      assert (marks + [mark])[1..] == marks[1..] + [mark];
      CountAppend(marks[1..], mark, horizon);
    }
  }

  datatype Kind = K2xx | K3xx | K4xx | K5xx | KErr | KOther

  datatype Owner = Owner(service: string, host: string, kind: Kind)

  class TimeBucket {
    const bucket: int
    var slice: seq<int>
    ghost var marks: seq<int>   // every mark ever made
    ghost const owner: Owner

    constructor (bucket: int, ghost owner: Owner)
      ensures this.bucket == bucket && this.owner == owner && slice == [] && marks == []
    {
      this.bucket := bucket;
      this.owner := owner;
      slice, marks := [], [];
    }

    /** At an instant: the slice is a suffix of the ascending history of marks, and what was dropped
        had left the window. */
    ghost predicate Valid(now: int)
      reads this
    {
      && Ascending(marks)
      && (forall i :: 0 <= i < |marks| ==> marks[i] <= now)
      && |slice| <= |marks|
      && slice == marks[|marks| - |slice|..]
      && (forall i :: 0 <= i < |marks| - |slice| ==> marks[i] <= now - bucket)
    }

    method Prune(clock: Clock)
      requires Valid(clock.time)
      modifies clock, this`slice
      ensures old(clock.time) <= clock.time
      ensures Valid(clock.time)
      ensures forall i :: 0 <= i < |slice| ==> slice[i] > clock.time - bucket
    {
      var now := clock.Now();
      var horizon := now - bucket;
      if |slice| == 0 || slice[0] > horizon {
        return;
      }
      var trimIdx := -1;
      var i := 0;
      while i < |slice|
        invariant 0 <= i <= |slice| && trimIdx == -1
        invariant forall j :: 0 <= j < i ==> slice[j] <= horizon
      {
        if slice[i] > horizon {
          trimIdx := i;
          break;
        }
        i := i + 1;
      }
      if trimIdx == -1 {
        slice := [];
      } else {
        slice := slice[trimIdx..];
      }
    }

    method Mark(clock: Clock)
      requires Valid(clock.time)
      modifies clock, this
      ensures old(clock.time) <= clock.time
      ensures Valid(clock.time)
      ensures marks == old(marks) + [clock.time]
    {
      Prune(clock);
      var t := clock.Now();
      slice := slice + [t];
      marks := marks + [t];
    }

    /** The length of the pruned slice is the number of marks ever made that lie in the window. */
    method Count(clock: Clock) returns (n: int)
      requires Valid(clock.time)
      modifies clock, this`slice
      ensures old(clock.time) <= clock.time
      ensures Valid(clock.time)
      ensures n == CountAfter(marks, clock.time - bucket)
    {
      Prune(clock);
      n := |slice|;
      CountOfSuffix(marks, |marks| - |slice|, clock.time - bucket);
    }
  }
}
