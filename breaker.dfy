/** The trip rule the repository gives its circuit breaker (pkg/common/resilience/breaker.go).
    The breaker's state machine itself belongs to the gobreaker library and is not modelled;
    only the `ReadyToTrip` settings callback is. */
module Breaker {

  /** The five request counters gobreaker passes to `ReadyToTrip` (`uint32` there). */
  datatype Counts = Counts(
    requests: nat,
    totalSuccesses: nat,
    totalFailures: nat,
    consecutiveSuccesses: nat,
    consecutiveFailures: nat)

  const MinRequests: nat := 3

  /** Trip once at least three requests were seen and at least 40% of them failed.
      The ratio test `failures/requests >= 0.4` is stated over naturals as `5*failures >= 2*requests`. */
  predicate ReadyToTrip(counts: Counts)
  {
    counts.requests >= MinRequests && 5 * counts.totalFailures >= 2 * counts.requests
  }

  /** The integer form agrees with the ratio `TotalFailures/Requests >= 0.4` of the source,
      evaluated exactly. */
  lemma ReadyToTripIsRatioTest(counts: Counts)
    ensures ReadyToTrip(counts)
      <==> counts.requests >= 3 && (counts.totalFailures as real) / (counts.requests as real) >= 0.4
  {
    if counts.requests >= 3 {
      RatioAtLeastTwoFifths(counts.totalFailures as real, counts.requests as real);
    }
  }

  lemma RatioAtLeastTwoFifths(f: real, r: real)
    requires r > 0.0
    ensures f / r >= 0.4 <==> 5.0 * f >= 2.0 * r
  {
    var q := f / r;
    assert q * r == f;
    if q >= 0.4 {
      assert (q - 0.4) * r >= 0.0;
    } else {
      assert (0.4 - q) * r > 0.0;
    }
  }

  /** Fewer than three requests never trip, whatever the failure count; in particular zero
      requests never reach the division. */
  lemma NoTripBelowMinRequests(counts: Counts)
    requires counts.requests < 3
    ensures !ReadyToTrip(counts)
  {
  }

  /** 2 failures of 3 requests trip, 1 of 3 does not, and exactly 40% (2 of 5) trips. */
  lemma TripExamples()
    ensures ReadyToTrip(Counts(3, 1, 2, 0, 2))
    ensures !ReadyToTrip(Counts(3, 2, 1, 0, 1))
    ensures ReadyToTrip(Counts(5, 3, 2, 0, 0))
    ensures !ReadyToTrip(Counts(5, 4, 1, 0, 0))
  {
  }

  /** For a fixed request count, more failures never undo a trip. */
  lemma TripMonotoneInFailures(a: Counts, b: Counts)
    requires a.requests == b.requests && a.totalFailures <= b.totalFailures
    ensures ReadyToTrip(a) ==> ReadyToTrip(b)
  {
  }

  /** Only the request and total failure counts matter; the success count and the consecutive
      counters are ignored. */
  lemma TripIgnoresOtherCounts(a: Counts, b: Counts)
    requires a.requests == b.requests && a.totalFailures == b.totalFailures
    ensures ReadyToTrip(a) == ReadyToTrip(b)
  {
  }
}
