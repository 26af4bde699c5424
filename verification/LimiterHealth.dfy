/** The limiter object with each increment and each decrement taken as one step, and what its health
    component then says about the history of the counter (witchcraft/ratelimit/middleware.go:91-121). */
module LimiterHealth {
  import opened Limiter

  /** The limiter under a constant limit. */
  class InFlightLimiter {
    const limit: int
    var current: int
    var health: Health
    ghost var ops: seq<Op>   // every operation so far

    constructor (limit: int)
      ensures Valid() && ops == [] && this.limit == limit
    {
      this.limit := limit;
      current, health, ops := 0, Healthy, [];
    }

    /** The two fields are those of the history. */
    ghost predicate Valid()
      reads this
    {
      current == Count(ops) && health == HealthAfter(limit, ops)
    }

    /** Throttles exactly when the request makes one more than the limit admits. */
    method Increment() returns (throttled: bool)
      requires Valid()
      modifies this
      ensures Valid() && ops == old(ops) + [Inc]
      ensures throttled <==> Count(ops) > Clamp(limit)
    {
      ops := ops + [Inc];
      assert ops[..|ops| - 1] == old(ops);
      current := current + 1;
      if current <= Clamp(limit) {
        return false;
      }
      if health != Repairing {
        health := Repairing;
      }
      return true;
    }

    method Decrement()
      requires Valid()
      modifies this
      ensures Valid() && ops == old(ops) + [Dec]
    {
      ops := ops + [Dec];
      assert ops[..|ops| - 1] == old(ops);
      current := current - 1;
      if current < Clamp(limit) && health != Healthy {
        health := Healthy;
      }
    }

    /** What the component says, in terms of the counter's history. */
    method Report() returns (h: Health)
      requires Valid()
      ensures h == Repairing <==> LastAbove(limit, ops)
    {
      HealthIsLastSide(limit, ops);
      h := health;
    }
  }

  datatype Op = Inc | Dec

  /** The counter after a sequence of operations. */
  function Count(ops: seq<Op>): int {
    if ops == [] then 0
    else Count(ops[..|ops| - 1]) + (match ops[|ops| - 1] case Inc => 1 case Dec => -1)
  }

  /** The health after a sequence of operations under limit n, step by step as the object does it. */
  function HealthAfter(n: int, ops: seq<Op>): Health {
    if ops == [] then Healthy
    else
      var before, now := HealthAfter(n, ops[..|ops| - 1]), Count(ops);
      match ops[|ops| - 1]
      case Inc => if now > Clamp(n) then Repairing else before
      case Dec => if now < Clamp(n) then Healthy else before
  }

  /** Whether the counter, the last time it was not exactly at the limit, was above it. */
  function LastAbove(n: int, ops: seq<Op>): bool {
    if Count(ops) != Clamp(n) then Count(ops) > Clamp(n)
    else if ops == [] then false
    else LastAbove(n, ops[..|ops| - 1])
  }

  /** The health is a function of the counter's history alone: REPAIRING exactly when the counter was
      above the limit the last time it was off it. */
  lemma {:induction false} HealthIsLastSide(n: int, ops: seq<Op>)
    ensures HealthAfter(n, ops) == Repairing <==> LastAbove(n, ops)
    ensures Count(ops) > Clamp(n) ==> HealthAfter(n, ops) == Repairing
    ensures Count(ops) < Clamp(n) ==> HealthAfter(n, ops) == Healthy
  {
    if ops != [] {
      HealthIsLastSide(n, ops[..|ops| - 1]);
    }
  }

  predicate HealthyIfDrained(n: int, ops: seq<Op>) {
    Count(ops) == 0 ==> HealthAfter(n, ops) == Healthy
  }

  /** Draining always restores HEALTHY exactly when the limit is at least one. */
  lemma DrainingIsHealthy(n: int)
    ensures n >= 1 <==> forall ops :: HealthyIfDrained(n, ops)
  {
    if n >= 1 {
      forall ops
        ensures HealthyIfDrained(n, ops)
      {
        HealthIsLastSide(n, ops);
      }
    } else {
      var ops := [Inc] + [Dec];
      assert ops[..|ops| - 1] == [Inc];
      assert [Inc][..0] == [] && Count([Inc]) == 1 && HealthAfter(n, [Inc]) == Repairing;
      assert !HealthyIfDrained(n, ops);
    }
  }
}
